/** The user record of the service and the constraints declared on its fields. */
module Usuarios {

  datatype Option<+T> = None | Some(value: T)

  /** A stored user: identifier, name, age, e-mail address and city. */
  datatype Usuario = Usuario(id: string, nombre: string, edad: int, correo: string, ciudad: string)

  /** The field constraints every record meets once it has been validated:
      name, e-mail and city at least two characters long, age strictly between 0 and 120.
      The e-mail syntax check of `EmailStr` is a library validator; it is not part of
      this predicate (see `ReglaCorreo`). The `id` field
      carries no constraint. */
  predicate Valido(u: Usuario) {
    |u.nombre| >= 2 && 0 < u.edad < 120 && |u.correo| >= 2 && |u.ciudad| >= 2
  }

  /** The fields that carry a constraint, in declaration order. */
  datatype Campo = Nombre | Edad | Correo | Ciudad

  /** A request body before validation; the client may leave `id` out. */
  datatype Solicitud = Solicitud(id: Option<string>, nombre: string, edad: int, correo: string, ciudad: string)

  /** Outcome of validating a request body: the record built from it, or the fields that failed. */
  datatype Validacion = Aceptado(usuario: Usuario) | Rechazado(campos: seq<Campo>)

  /** The e-mail rule of `EmailStr`, a library validator the model does not see:
      `acepta` is its syntax check, and `normaliza` gives the address it hands
      back in place of the one sent (trimmed, taken out of a `Name <addr>` form,
      domain in lower case). */
  datatype ReglaCorreo = ReglaCorreo(acepta: string -> bool, normaliza: string -> string)

  /** Whether field `c` of `s` meets its constraint; the e-mail's length bound
      applies to the address as the rule returns it. */
  predicate CampoCumple(s: Solicitud, c: Campo, regla: ReglaCorreo) {
    match c
    case Nombre => |s.nombre| >= 2
    case Edad => 0 < s.edad < 120
    case Correo => regla.acepta(s.correo) && |regla.normaliza(s.correo)| >= 2
    case Ciudad => |s.ciudad| >= 2
  }

  /** Position of a field in the record's declaration. */
  function Posicion(c: Campo): nat {
    match c
    case Nombre => 0
    case Edad => 1
    case Correo => 2
    case Ciudad => 3
  }

  /** The fields in declaration order. */
  const Campos: seq<Campo> := [Nombre, Edad, Correo, Ciudad]

  /** Every field appears in `Campos`. */
  lemma CamposCompletos()
    ensures forall c :: c in Campos
  {
    forall c ensures c in Campos {
      match c
      case Nombre => assert Campos[0] == c;
      case Edad => assert Campos[1] == c;
      case Correo => assert Campos[2] == c;
      case Ciudad => assert Campos[3] == c;
    }
  }

  /** The fields of `cs` that fail in `s`, in the order of `cs`. */
  function Fallidos(s: Solicitud, regla: ReglaCorreo, cs: seq<Campo>): (e: seq<Campo>)
    ensures forall c :: c in e <==> c in cs && !CampoCumple(s, c, regla)
    ensures (forall i, j :: 0 <= i < j < |cs| ==> Posicion(cs[i]) < Posicion(cs[j])) ==>
      forall i, j :: 0 <= i < j < |e| ==> Posicion(e[i]) < Posicion(e[j])
  {
    if cs == [] then []
    else
      var resto := Fallidos(s, regla, cs[1..]);
      assert forall k :: 0 <= k < |resto| ==> resto[k] in cs[1..];
      var cabeza := if CampoCumple(s, cs[0], regla) then [] else [cs[0]];
      assert forall k :: 0 <= k < |cabeza| ==> cabeza[k] == cs[0];
      cabeza + resto
  }

  /** The failing fields of `s`, each once, in declaration order. */
  function Errores(s: Solicitud, regla: ReglaCorreo): (e: seq<Campo>)
    ensures forall c :: c in e <==> !CampoCumple(s, c, regla)
    ensures forall i, j :: 0 <= i < j < |e| ==> Posicion(e[i]) < Posicion(e[j])
  {
    CamposCompletos();
    Fallidos(s, regla, Campos)
  }

  /** Validation of a request body into a record. When the body has no `id`, the
      record gets `idNuevo`, which stands for the random identifier the field's
      default factory generates; the record keeps the address the e-mail rule
      returns. */
  function Validar(s: Solicitud, idNuevo: string, regla: ReglaCorreo): (r: Validacion)
    ensures r.Aceptado? <==> forall c :: CampoCumple(s, c, regla)
    ensures r.Aceptado? ==> Valido(r.usuario) && regla.acepta(s.correo)
    ensures r.Aceptado? ==>
      && r.usuario.id == (if s.id.Some? then s.id.value else idNuevo)
      && r.usuario.nombre == s.nombre && r.usuario.edad == s.edad
      && r.usuario.correo == regla.normaliza(s.correo) && r.usuario.ciudad == s.ciudad
    ensures r.Rechazado? ==>
      && |r.campos| > 0
      && forall c :: c in r.campos <==> !CampoCumple(s, c, regla)
  {
    var e := Errores(s, regla);
    if e == [] then
      assert CampoCumple(s, Nombre, regla) && CampoCumple(s, Edad, regla);
      assert CampoCumple(s, Correo, regla) && CampoCumple(s, Ciudad, regla);
      Aceptado(Usuario(if s.id.Some? then s.id.value else idNuevo, s.nombre, s.edad, regla.normaliza(s.correo), s.ciudad))
    else
      assert e[0] in e;
      Rechazado(e)
  }

  /** A body is accepted exactly when the record it becomes meets `Valido` and its
      e-mail passes the syntax check. */
  lemma ValidarSegunValido(s: Solicitud, idNuevo: string, regla: ReglaCorreo)
    ensures Validar(s, idNuevo, regla).Aceptado? <==>
      Valido(Usuario(if s.id.Some? then s.id.value else idNuevo, s.nombre, s.edad, regla.normaliza(s.correo), s.ciudad))
      && regla.acepta(s.correo)
  {
  }
}
