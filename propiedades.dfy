/** What the store operations promise and keep: identifier uniqueness, field
    validity, and how get answers after create, update and delete. */
module Propiedades {
  import opened Usuarios
  import opened Almacen

  /** The seed list has pairwise distinct ids and only valid records. */
  lemma SemillaCorrecta()
    ensures IdsUnicos(Semilla()) && TodosValidos(Semilla())
  {
  }

  // ---------------------------------------------------------------------------
  // Identifier uniqueness

  /** Create keeps ids distinct: it appends only an id that is not present. */
  lemma CrearPreservaUnicidad(s: seq<Usuario>, u: Usuario)
    requires IdsUnicos(s)
    ensures IdsUnicos(Crear(s, u).usuarios)
  {
  }

  /** Delete keeps ids distinct: what remains is a subsequence of the old list. */
  lemma EliminarPreservaUnicidad(s: seq<Usuario>, id: string)
    requires IdsUnicos(s)
    ensures IdsUnicos(Eliminar(s, id).usuarios)
  {
  }

  /** Update stores the body's id without checking it. On a list with distinct
      ids, the ids stay distinct exactly when the body keeps the path id or
      carries an id no record has. */
  lemma ActualizarUnicidad(s: seq<Usuario>, id: string, nuevo: Usuario)
    requires IdsUnicos(s) && Contiene(s, id)
    ensures IdsUnicos(Actualizar(s, id, nuevo).usuarios) <==> (nuevo.id == id || !Contiene(s, nuevo.id))
  {
  }

  /** A concrete case: overwriting record "1" of the seed list with a body whose
      id is "2" is accepted and leaves two records with id "2". */
  lemma ActualizarRompeUnicidadEnSemilla()
    ensures Actualizar(Semilla(), "1", Usuario("2", "Maria", 25, "maria@gmail.com", "Medell\U{ED}n")).resultado.Ok?
    ensures !IdsUnicos(Actualizar(Semilla(), "1", Usuario("2", "Maria", 25, "maria@gmail.com", "Medell\U{ED}n")).usuarios)
  {
    var s := Semilla();
    var nuevo := Usuario("2", "Maria", 25, "maria@gmail.com", "Medell\U{ED}n");
    assert EsPrimero(s, "1", 0);
    var t := Actualizar(s, "1", nuevo).usuarios;
    assert t[0].id == "2" && t[1].id == "2";
  }

  // ---------------------------------------------------------------------------
  // Get after create, update and delete

  /** A record created under a fresh id is what get then returns for that id. */
  lemma ObtenerTrasCrear(s: seq<Usuario>, u: Usuario)
    requires !Contiene(s, u.id)
    ensures Obtener(Crear(s, u).usuarios, u.id) == Ok(u)
  {
  }

  /** An update whose body keeps the path id is what get then returns. */
  lemma ObtenerTrasActualizar(s: seq<Usuario>, id: string, nuevo: Usuario)
    requires Contiene(s, id) && nuevo.id == id
    ensures Obtener(Actualizar(s, id, nuevo).usuarios, id) == Ok(nuevo)
  {
  }

  /** On a list with distinct ids, an update whose body carries another id leaves
      no record under the path id: get on it then fails. */
  lemma ActualizarConOtroIdPierdeRuta(s: seq<Usuario>, id: string, nuevo: Usuario)
    requires IdsUnicos(s) && Contiene(s, id) && nuevo.id != id
    ensures Obtener(Actualizar(s, id, nuevo).usuarios, id) == Falla(NoEncontrado)
  {
  }

  /** The same, for a body sent without an id: validation gives it a freshly
      generated id, so unless that id happens to equal the path id the record
      can no longer be reached under the path id. */
  lemma ActualizarSinIdPierdeRuta(s: seq<Usuario>, id: string, cuerpo: Solicitud, idNuevo: string, regla: ReglaCorreo)
    requires IdsUnicos(s) && Contiene(s, id)
    requires cuerpo.id.None? && idNuevo != id && forall c :: CampoCumple(cuerpo, c, regla)
    ensures Actualizar(s, id, Validar(cuerpo, idNuevo, regla).usuario).resultado.Ok?
    ensures Obtener(Actualizar(s, id, Validar(cuerpo, idNuevo, regla).usuario).usuarios, id) == Falla(NoEncontrado)
  {
  }

  /** On a list with distinct ids, after a delete get on the same id fails. */
  lemma ObtenerTrasEliminar(s: seq<Usuario>, id: string)
    requires IdsUnicos(s)
    ensures Obtener(Eliminar(s, id).usuarios, id) == Falla(NoEncontrado)
  {
  }

  // ---------------------------------------------------------------------------
  // Field validity

  /** Create keeps every stored record valid when the new record is valid. */
  lemma CrearPreservaValidez(s: seq<Usuario>, u: Usuario)
    requires TodosValidos(s) && Valido(u)
    ensures TodosValidos(Crear(s, u).usuarios)
  {
  }

  /** Update keeps every stored record valid when the body is valid. */
  lemma ActualizarPreservaValidez(s: seq<Usuario>, id: string, nuevo: Usuario)
    requires TodosValidos(s) && Valido(nuevo)
    ensures TodosValidos(Actualizar(s, id, nuevo).usuarios)
  {
  }

  /** Delete keeps every remaining record valid. */
  lemma EliminarPreservaValidez(s: seq<Usuario>, id: string)
    requires TodosValidos(s)
    ensures TodosValidos(Eliminar(s, id).usuarios)
  {
  }

  // ---------------------------------------------------------------------------
  // Sequences of creates

  /** The list after creating each record of `us` in turn, starting from `s`. */
  function CrearTodos(s: seq<Usuario>, us: seq<Usuario>): seq<Usuario>
    decreases |us|
  {
    if us == [] then s else CrearTodos(Crear(s, us[0]).usuarios, us[1..])
  }

  /** Creating records whose ids are distinct among themselves and absent from
      the list, one after another, appends them in creation order, so listing
      returns the old records then these. The old list's own ids may repeat. */
  lemma {:induction false} CrearTodosAnexa(s: seq<Usuario>, us: seq<Usuario>)
    requires forall i, j :: 0 <= i < j < |us| ==> us[i].id != us[j].id
    requires forall k :: 0 <= k < |us| ==> !Contiene(s, us[k].id)
    ensures CrearTodos(s, us) == s + us
    decreases |us|
  {
    if us != [] {
      var t := s + [us[0]];
      assert Crear(s, us[0]).usuarios == t;
      var resto := us[1..];
      forall k | 0 <= k < |resto| ensures !Contiene(t, resto[k].id) {
        assert resto[k] == us[k + 1];
        assert us[0].id != us[k + 1].id;
        forall m | 0 <= m < |t| ensures t[m].id != resto[k].id {
          if m < |s| {
            assert t[m] == s[m];
          }
        }
      }
      assert t + resto == s + us;
      CrearTodosAnexa(t, resto);
    }
  }

  // ---------------------------------------------------------------------------
  // Identifiers generated on create

  /** A body without an id that passes validation gets the generated id; when no
      record has that id, create stores the record and answers with it. */
  lemma CrearConIdGenerado(s: seq<Usuario>, cuerpo: Solicitud, idNuevo: string, regla: ReglaCorreo)
    requires cuerpo.id.None? && Validar(cuerpo, idNuevo, regla).Aceptado? && !Contiene(s, idNuevo)
    ensures Validar(cuerpo, idNuevo, regla).usuario.id == idNuevo
    ensures Crear(s, Validar(cuerpo, idNuevo, regla).usuario).resultado == Ok(Validar(cuerpo, idNuevo, regla).usuario)
    ensures Crear(s, Validar(cuerpo, idNuevo, regla).usuario).usuarios == s + [Validar(cuerpo, idNuevo, regla).usuario]
  {
  }

  /** One store with Maria under id "1"; a body for Carlos without an id is
      accepted, stored under the generated id, and the list then has two records. */
  lemma CrearSinIdEjemplo(idNuevo: string, regla: ReglaCorreo)
    requires idNuevo != "1" && regla.acepta("carlos@gmail.com") && |regla.normaliza("carlos@gmail.com")| >= 2
    ensures
      var s := [Usuario("1", "Maria", 25, "maria@gmail.com", "Medell\U{ED}n")];
      var v := Validar(Solicitud(None, "Carlos", 30, "carlos@gmail.com", "Cali"), idNuevo, regla);
      && v.Aceptado? && v.usuario.id == idNuevo
      && Crear(s, v.usuario).resultado == Ok(v.usuario)
      && |Crear(s, v.usuario).usuarios| == 2
  {
  }

  /** When every field of `cs` passes, none is reported. */
  lemma {:induction false} FallidosNinguno(s: Solicitud, regla: ReglaCorreo, cs: seq<Campo>)
    requires forall k :: 0 <= k < |cs| ==> CampoCumple(s, cs[k], regla)
    ensures Fallidos(s, regla, cs) == []
  {
    if cs != [] {
      FallidosNinguno(s, regla, cs[1..]);
    }
  }

  /** When `c` is the one failing field among the distinct fields `cs`, exactly
      `c` is reported. */
  lemma {:induction false} FallidosUno(s: Solicitud, regla: ReglaCorreo, cs: seq<Campo>, c: Campo)
    requires c in cs && forall i, j :: 0 <= i < j < |cs| ==> cs[i] != cs[j]
    requires !CampoCumple(s, c, regla)
    requires forall d :: d != c ==> CampoCumple(s, d, regla)
    ensures Fallidos(s, regla, cs) == [c]
  {
    if cs[0] == c {
      forall k | 0 <= k < |cs[1..]| ensures CampoCumple(s, cs[1..][k], regla) {
        assert cs[1..][k] == cs[k + 1] != cs[0];
      }
      FallidosNinguno(s, regla, cs[1..]);
    } else {
      FallidosUno(s, regla, cs[1..], c);
    }
  }

  /** When exactly one field of a body breaks its constraint, validation refuses
      the body naming that field alone. */
  lemma SoloUnCampoFalla(s: Solicitud, c: Campo, idNuevo: string, regla: ReglaCorreo)
    requires !CampoCumple(s, c, regla)
    requires forall d :: d != c ==> CampoCumple(s, d, regla)
    ensures Validar(s, idNuevo, regla) == Rechazado([c])
  {
    CamposCompletos();
    FallidosUno(s, regla, Campos, c);
  }

  /** Bodies that validation refuses: age 0, 120 and -1, a one-letter name, an
      empty city, and an address the e-mail check rejects. */
  lemma RechazosDeValidacion(idNuevo: string, regla: ReglaCorreo)
    requires regla.acepta("carlos@gmail.com") && |regla.normaliza("carlos@gmail.com")| >= 2
    requires !regla.acepta("not-an-email")
    ensures Validar(Solicitud(None, "Carlos", 0, "carlos@gmail.com", "Cali"), idNuevo, regla) == Rechazado([Edad])
    ensures Validar(Solicitud(None, "Carlos", 120, "carlos@gmail.com", "Cali"), idNuevo, regla) == Rechazado([Edad])
    ensures Validar(Solicitud(None, "Carlos", -1, "carlos@gmail.com", "Cali"), idNuevo, regla) == Rechazado([Edad])
    ensures Validar(Solicitud(None, "a", 30, "carlos@gmail.com", "Cali"), idNuevo, regla) == Rechazado([Nombre])
    ensures Validar(Solicitud(None, "Carlos", 30, "carlos@gmail.com", ""), idNuevo, regla) == Rechazado([Ciudad])
    ensures Validar(Solicitud(None, "Carlos", 30, "not-an-email", "Cali"), idNuevo, regla) == Rechazado([Correo])
  {
    var b0 := Solicitud(None, "Carlos", 0, "carlos@gmail.com", "Cali");
    assert CampoCumple(b0, Nombre, regla) && CampoCumple(b0, Correo, regla) && CampoCumple(b0, Ciudad, regla);
    assert !CampoCumple(b0, Edad, regla);
    SoloUnCampoFalla(b0, Edad, idNuevo, regla);
    var b1 := Solicitud(None, "Carlos", 120, "carlos@gmail.com", "Cali");
    assert CampoCumple(b1, Nombre, regla) && CampoCumple(b1, Correo, regla) && CampoCumple(b1, Ciudad, regla);
    assert !CampoCumple(b1, Edad, regla);
    SoloUnCampoFalla(b1, Edad, idNuevo, regla);
    var b2 := Solicitud(None, "Carlos", -1, "carlos@gmail.com", "Cali");
    assert CampoCumple(b2, Nombre, regla) && CampoCumple(b2, Correo, regla) && CampoCumple(b2, Ciudad, regla);
    assert !CampoCumple(b2, Edad, regla);
    SoloUnCampoFalla(b2, Edad, idNuevo, regla);
    var b3 := Solicitud(None, "a", 30, "carlos@gmail.com", "Cali");
    assert CampoCumple(b3, Edad, regla) && CampoCumple(b3, Correo, regla) && CampoCumple(b3, Ciudad, regla);
    assert !CampoCumple(b3, Nombre, regla);
    SoloUnCampoFalla(b3, Nombre, idNuevo, regla);
    var b4 := Solicitud(None, "Carlos", 30, "carlos@gmail.com", "");
    assert CampoCumple(b4, Nombre, regla) && CampoCumple(b4, Edad, regla) && CampoCumple(b4, Correo, regla);
    assert !CampoCumple(b4, Ciudad, regla);
    SoloUnCampoFalla(b4, Ciudad, idNuevo, regla);
    var b5 := Solicitud(None, "Carlos", 30, "not-an-email", "Cali");
    assert CampoCumple(b5, Nombre, regla) && CampoCumple(b5, Edad, regla) && CampoCumple(b5, Ciudad, regla);
    assert !CampoCumple(b5, Correo, regla);
    SoloUnCampoFalla(b5, Correo, idNuevo, regla);
  }
}
