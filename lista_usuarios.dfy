/** The service's handlers over the module-level list of users, kept as an object
    whose one field is the list; each handler is proved against its function in
    `Almacen`. */
module Api {
  import opened Usuarios
  import opened Almacen

  class ListaUsuarios {
    /** The records, in insertion order. */
    var usuarios: seq<Usuario>

    /** The list as the process starts it: the six seed records. */
    constructor ()
      ensures usuarios == Semilla()
    {
      usuarios := Semilla();
    }

    /** POST /usuarios: scan for the id, then append. */
    method CrearUsuario(u: Usuario) returns (r: Resultado)
      modifies this
      ensures Paso(r, usuarios) == Crear(old(usuarios), u)
    {
      var i := 0;
      while i < |usuarios|
        invariant 0 <= i <= |usuarios| && usuarios == old(usuarios)
        invariant forall j :: 0 <= j < i ==> usuarios[j].id != u.id
      {
        if usuarios[i].id == u.id {
          return Falla(IdDuplicado);
        }
        i := i + 1;
      }
      usuarios := usuarios + [u];
      r := Ok(u);
    }

    /** GET /usuarios: the whole list, in order. */
    method ObtenerUsuarios() returns (r: seq<Usuario>)
      ensures r == usuarios
    {
      r := usuarios;
    }

    /** GET /usuarios/{id}: the first record with that id. */
    method ObtenerUsuario(id: string) returns (r: Resultado)
      ensures r == Obtener(usuarios, id)
    {
      var i := 0;
      while i < |usuarios|
        invariant 0 <= i <= |usuarios|
        invariant forall j :: 0 <= j < i ==> usuarios[j].id != id
      {
        if usuarios[i].id == id {
          assert EsPrimero(usuarios, id, i);
          return Ok(usuarios[i]);
        }
        i := i + 1;
      }
      r := Falla(NoEncontrado);
    }

    /** PUT /usuarios/{id}: overwrite the first record with that id by the body. */
    method ActualizarUsuario(id: string, nuevo: Usuario) returns (r: Resultado)
      modifies this
      ensures Paso(r, usuarios) == Actualizar(old(usuarios), id, nuevo)
    {
      var i := 0;
      while i < |usuarios|
        invariant 0 <= i <= |usuarios| && usuarios == old(usuarios)
        invariant forall j :: 0 <= j < i ==> usuarios[j].id != id
      {
        if usuarios[i].id == id {
          assert EsPrimero(usuarios, id, i);
          usuarios := usuarios[i := nuevo];
          return Ok(nuevo);
        }
        i := i + 1;
      }
      r := Falla(NoEncontrado);
    }

    /** DELETE /usuarios/{id}: pop the first record with that id. */
    method EliminarUsuario(id: string) returns (r: Resultado)
      modifies this
      ensures Paso(r, usuarios) == Eliminar(old(usuarios), id)
    {
      var i := 0;
      while i < |usuarios|
        invariant 0 <= i <= |usuarios| && usuarios == old(usuarios)
        invariant forall j :: 0 <= j < i ==> usuarios[j].id != id
      {
        if usuarios[i].id == id {
          assert EsPrimero(usuarios, id, i);
          var eliminado := usuarios[i];
          usuarios := usuarios[..i] + usuarios[i + 1..];
          return Ok(eliminado);
        }
        i := i + 1;
      }
      r := Falla(NoEncontrado);
    }
  }
}
