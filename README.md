# User store of the CRUD service (api_02.py)

This project models the core of a small HTTP service that manages user records
(`Usuario`: `id`, `nombre`, `edad`, `correo`, `ciudad`) in a process-local list,
`list_usuarios`. The model has two parts:

- the field constraints that a request body must meet, and how a body becomes a
  record;
- the five store operations: create, list, get, update and delete.

The model has four modules:

- `Usuarios` (`usuario.dfy`): the record datatype.
  - `Valido` is the constraint every record meets: name, e-mail and city at least
    two characters long, and an age strictly between 0 and 120.
  - `Validar` turns a request body into a record or into the list of fields that
    failed, in declaration order.
  - When the body has no `id`, `Validar` uses the parameter `idNuevo`. This
    parameter stands for the random identifier the field's default factory
    generates.
  - The e-mail rule of `EmailStr` is the parameter `regla` (`ReglaCorreo`). It
    holds the syntax check (`acepta`) and the normalised address the library
    returns (`normaliza`). The record stores the normalised address.
- `Almacen` (`almacen.dfy`): each operation as a function on `seq<Usuario>`,
  giving the answer and the list afterwards (`Paso`).
  - The HTTP errors become values: `Falla(IdDuplicado)` is the 400 on create and
    `Falla(NoEncontrado)` is the 404 on get, update and delete.
  - `PrimerIndice` is the front-to-back scan shared by get, update and delete.
  - `Semilla` is the list of six records the process starts with.
- `Api` (`lista_usuarios.dfy`): the class `ListaUsuarios`.
  - It has one field, the list, which the handlers change in place: they append,
    overwrite a position, or remove a position.
  - Each handler is written as the source's early-exit scan loop.
  - Each handler is proved to give exactly the answer and the new list of its
    `Almacen` function.
- `Propiedades` (`propiedades.dfy`): lemmas about the store.
  - Uniqueness of ids: create and delete keep ids distinct. Update keeps them
    distinct only under a condition, stated as an if-and-only-if, and a concrete
    case breaks it.
  - Validity: every operation keeps all stored records valid.
  - Get after create, update and delete.
  - Repeated creates append in order.
  - Validation examples.

Update stores the request body as it is, including the body's own `id`
(api_02.py:104); the path id is used only to find the position. If the body has
no `id`, it gets a generated one (api_02.py:15).

- So ids are not unique at all times. `ActualizarUnicidad` states
  exactly when uniqueness survives an update.
- `ActualizarRompeUnicidadEnSemilla` shows an update on the seed list that
  leaves two records with id "2".
- `ActualizarSinIdPierdeRuta` shows that after an update whose body has no id,
  the record can no longer be found under the path id.

## Model

| member | source | states |
|---|---|---|
| Usuarios.Valido | api_02.py:16-19 | a stored record has name, e-mail and city of at least two characters and an age strictly between 0 and 120 |
| Usuarios.CampoCumple | api_02.py:16-19 | the constraint of each field of a request body, the e-mail's syntax check included |
| Almacen.Contiene | api_02.py:60 | some record of the list has the given id |
| Almacen.Semilla | api_02.py:34-41 | the six records the list starts with, in the source's order and with its values |
| Usuarios.Fallidos | api_02.py:16-19 | the fields of a given list that break their constraint are reported, exactly those, and in the list's order when the list is in declaration order |
| Usuarios.Errores | api_02.py:16-19 | a field is reported exactly when its constraint fails; the reported fields are in declaration order, so none repeats |
| Usuarios.Validar | api_02.py:14-19 | a body is accepted iff every field constraint holds. The accepted record is valid. It copies the body's name, age and city, and stores the address the e-mail rule returns. It takes the body's id or else the generated one. A refused body yields a non-empty list of exactly the failing fields |
| Usuarios.ValidarSegunValido | api_02.py:15-19 | a body is accepted iff the record built from it satisfies `Valido` and its e-mail passes the syntax check |
| Almacen.PrimerIndice | api_02.py:87-90 | the scan finds nothing iff no record has the id; otherwise it stops at the first position holding that id |
| Almacen.Crear | api_02.py:60-65 | a taken id gives the duplicate error (400) and an unchanged list. Otherwise the answer is the record, and the new list is the old list as a prefix followed by the record |
| Almacen.Obtener | api_02.py:87-90 | not-found (404) iff no record has the id; otherwise the record at the first matching position |
| Almacen.Actualizar | api_02.py:102-108 | an absent id gives not-found and an unchanged list. Otherwise the first matching position holds the body and every other position is unchanged. The length is kept and the body is returned |
| Almacen.Eliminar | api_02.py:119-125 | an absent id gives not-found and an unchanged list. Otherwise the first match is returned and the length drops by one. Records before the match stay in place, and records after it move up one place |
| Api.ListaUsuarios.constructor | api_02.py:34-41 | the list starts as the six seed records |
| Api.ListaUsuarios.CrearUsuario | api_02.py:50-65 | the duplicate-id scan and append give exactly the answer and new list of `Crear` |
| Api.ListaUsuarios.ObtenerUsuarios | api_02.py:67-74 | answers the whole list in its current order |
| Api.ListaUsuarios.ObtenerUsuario | api_02.py:76-90 | the scan answers exactly `Obtener` of the list; the list is not modified |
| Api.ListaUsuarios.ActualizarUsuario | api_02.py:92-108 | the scan and the overwrite in place give exactly the answer and new list of `Actualizar` |
| Api.ListaUsuarios.EliminarUsuario | api_02.py:110-125 | the scan and the pop give exactly the answer and new list of `Eliminar` |
| Propiedades.SemillaCorrecta | api_02.py:34-41 | the seed records have pairwise distinct ids and are all valid |
| Propiedades.CrearPreservaUnicidad | api_02.py:60-63 | create keeps ids pairwise distinct |
| Propiedades.EliminarPreservaUnicidad | api_02.py:119-121 | delete keeps ids pairwise distinct |
| Propiedades.ActualizarUnicidad | api_02.py:102-104 | on a list with distinct ids where the path id is present, the ids stay distinct after update iff the body's id is the path id or is not present |
| Propiedades.ActualizarRompeUnicidadEnSemilla | api_02.py:102-106 | updating record "1" of the seed list with a body whose id is "2" is accepted and leaves duplicate ids |
| Propiedades.ObtenerTrasCrear | api_02.py:60-90 | after creating a record under a fresh id, get on that id returns the record |
| Propiedades.ObtenerTrasActualizar | api_02.py:102-106 | after an update whose body keeps the path id, get on that id returns the body |
| Propiedades.ActualizarConOtroIdPierdeRuta | api_02.py:102-106 | on a list with distinct ids, after an update whose body has another id, get on the path id fails with not-found |
| Propiedades.ActualizarSinIdPierdeRuta | api_02.py:15 | on a list with distinct ids, an update whose body omits the id succeeds, and get on the path id then fails unless the generated id equals it |
| Propiedades.ObtenerTrasEliminar | api_02.py:119-123 | on a list with distinct ids, get on an id fails with not-found after a delete of that id |
| Propiedades.CrearPreservaValidez | api_02.py:60-63 | create with a valid record keeps every stored record valid |
| Propiedades.ActualizarPreservaValidez | api_02.py:102-104 | update with a valid body keeps every stored record valid |
| Propiedades.EliminarPreservaValidez | api_02.py:119-121 | delete keeps every remaining record valid |
| Propiedades.CrearTodosAnexa | api_02.py:60-65 | on any list, creating records whose ids are distinct among themselves and absent from the list, one after another, yields the old list followed by those records in creation order |
| Propiedades.CrearConIdGenerado | api_02.py:15 | a valid body without an id gets the generated id. If no record has that id, create stores the record at the end and returns it |
| Propiedades.CrearSinIdEjemplo | api_02.py:50-65 | from a one-record list, a valid body without an id is stored under the generated id and the list then has two records |
| Propiedades.FallidosNinguno | api_02.py:16-19 | when every field passes, no field is reported |
| Propiedades.FallidosUno | api_02.py:16-19 | when one field of a list of distinct fields is the only one that fails, exactly that field is reported |
| Propiedades.SoloUnCampoFalla | api_02.py:16-19 | a body with exactly one field breaking its constraint is refused, and validation names that field alone |
| Propiedades.RechazosDeValidacion | api_02.py:16-19 | age 0, 120 or -1, a one-letter name, an empty city and a rejected e-mail address are each refused, naming exactly that field |

## Left out

- The web framework: application setup, routing decorators, `async`, `response_model` serialisation and `HTTPException` (api_02.py:8-12, 43-125). Errors are the values `Falla(IdDuplicado)` (HTTP 400) and `Falla(NoEncontrado)` (HTTP 404). Validation failures (HTTP 422 from the framework) are `Rechazado`.
- The `root` endpoint and its `datetime.now()` timestamp (api_02.py:43-48). It reads the clock and has no logic.
- The `print` logging in create, update and delete. It is output only.
- `uuid4()` (api_02.py:15). It is a random source, so it is the parameter `idNuevo` of `Validar`. The model does not assume it differs from stored ids; lemmas that need this state it as a precondition.
- The e-mail rule of `EmailStr` (api_02.py:18). It is a library validator whose code is not part of this model. Its syntax check and its normalisation of the address are the two functions of the parameter `regla`, and they are not modelled further. The stored-record predicate `Valido` covers only the constraints visible in the source.
- Usuarios.CampoCumple: the model applies the e-mail's two-character bound to the normalised address, which is the one stored. The model does not settle whether the library measures the address before or after normalising it.
- Type coercion by the validation library (for example a numeric string accepted as `edad`). Bodies are modelled as already typed.
- `Config.schema_extra` (api_02.py:21-31). It is documentation metadata.
- Api.ListaUsuarios.ObtenerUsuarios: the source returns the list object itself, so a caller could alias it. The model returns the sequence value.
- Concurrency: each handler runs to completion before the next, as in the single-threaded server. Interleavings are not modelled.
