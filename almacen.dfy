/** The in-memory user store as values: the five operations on the ordered list of
    records, each giving its result and the list afterwards. */
module Almacen {
  import opened Usuarios

  /** The store's failures: a duplicate id on create (HTTP 400) and a missing id
      on get, update or delete (HTTP 404). */
  datatype Error = IdDuplicado | NoEncontrado

  datatype Resultado = Ok(usuario: Usuario) | Falla(error: Error)

  /** What an operation answers and the list of records it leaves behind. */
  datatype Paso = Paso(resultado: Resultado, usuarios: seq<Usuario>)

  /** Some record of `s` has identifier `id`. */
  predicate Contiene(s: seq<Usuario>, id: string) {
    exists i :: 0 <= i < |s| && s[i].id == id
  }

  /** Position `i` holds the first record of `s` whose identifier is `id`. */
  predicate EsPrimero(s: seq<Usuario>, id: string, i: int) {
    0 <= i < |s| && s[i].id == id && forall j :: 0 <= j < i ==> s[j].id != id
  }

  /** No two records of `s` share an identifier. */
  predicate IdsUnicos(s: seq<Usuario>) {
    forall i, j :: 0 <= i < j < |s| ==> s[i].id != s[j].id
  }

  /** Every record of `s` meets the field constraints. */
  predicate TodosValidos(s: seq<Usuario>) {
    forall i :: 0 <= i < |s| ==> Valido(s[i])
  }

  /** The six records the store starts with. */
  function Semilla(): seq<Usuario> {
    [ Usuario("1", "Maria", 25, "maria@gmail.com", "Medell\U{ED}n"),
      Usuario("2", "Carlos", 30, "carlos@gmail.com", "Cali"),
      Usuario("3", "Sofia", 22, "sofia@gmail.com", "Cartagena"),
      Usuario("4", "Andres", 28, "andres@gmail.com", "Barranquilla"),
      Usuario("5", "Lucia", 27, "lucia@gmail.com", "Pereira"),
      Usuario("6", "Diego", 24, "diego@gmail.com", "Santa Marta") ]
  }

  /** The position a front-to-back scan for `id` stops at, if any. */
  function PrimerIndice(s: seq<Usuario>, id: string): (r: Option<nat>)
    ensures r.None? <==> !Contiene(s, id)
    ensures r.Some? ==> EsPrimero(s, id, r.value)
  {
    if |s| == 0 then None
    else if s[0].id == id then Some(0)
    else
      match PrimerIndice(s[1..], id)
      case None => None
      case Some(k) => Some(k + 1)
  }

  /** Create: refused when the id is taken, otherwise the record is appended. */
  function Crear(s: seq<Usuario>, u: Usuario): (p: Paso)
    ensures Contiene(s, u.id) ==> p.resultado == Falla(IdDuplicado) && p.usuarios == s
    ensures !Contiene(s, u.id) ==>
      && p.resultado == Ok(u)
      && |p.usuarios| == |s| + 1 && p.usuarios[..|s|] == s && p.usuarios[|s|] == u
  {
    if Contiene(s, u.id) then Paso(Falla(IdDuplicado), s) else Paso(Ok(u), s + [u])
  }

  /** Get: the first record with identifier `id`. */
  function Obtener(s: seq<Usuario>, id: string): (r: Resultado)
    ensures r == Falla(NoEncontrado) <==> !Contiene(s, id)
    ensures forall i :: EsPrimero(s, id, i) ==> r == Ok(s[i])
  {
    match PrimerIndice(s, id)
    case None => Falla(NoEncontrado)
    case Some(i) => Ok(s[i])
  }

  /** Update: the first record with identifier `id` is replaced by `nuevo` as it
      is, whatever identifier `nuevo` carries. */
  function Actualizar(s: seq<Usuario>, id: string, nuevo: Usuario): (p: Paso)
    ensures !Contiene(s, id) ==> p.resultado == Falla(NoEncontrado) && p.usuarios == s
    ensures forall i :: EsPrimero(s, id, i) ==>
      && p.resultado == Ok(nuevo)
      && |p.usuarios| == |s| && p.usuarios[i] == nuevo
      && forall k :: 0 <= k < |s| && k != i ==> p.usuarios[k] == s[k]
  {
    match PrimerIndice(s, id)
    case None => Paso(Falla(NoEncontrado), s)
    case Some(i) => Paso(Ok(nuevo), s[i := nuevo])
  }

  /** Delete: the first record with identifier `id` is taken out and returned;
      the records after it move up one place. */
  function Eliminar(s: seq<Usuario>, id: string): (p: Paso)
    ensures !Contiene(s, id) ==> p.resultado == Falla(NoEncontrado) && p.usuarios == s
    ensures forall i :: EsPrimero(s, id, i) ==>
      && p.resultado == Ok(s[i])
      && |p.usuarios| == |s| - 1
      && (forall k :: 0 <= k < i ==> p.usuarios[k] == s[k])
      && (forall k :: i <= k < |s| - 1 ==> p.usuarios[k] == s[k + 1])
  {
    match PrimerIndice(s, id)
    case None => Paso(Falla(NoEncontrado), s)
    case Some(i) => Paso(Ok(s[i]), s[..i] + s[i + 1..])
  }
}
