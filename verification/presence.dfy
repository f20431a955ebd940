/**
 * Presence: the display name each socket carries in `socket.data.nombreUsuario`
 * and the entries of the online registry `usuariosConectados`.
 */
module Presence {
  import opened JsValues
  import opened OrderedMaps

  /** The transport-assigned id of one socket connection. */
  type SocketId = string

  /** An ISO-8601 date string; the clock that produces it is outside the model. */
  type Timestamp = string

  /** The `registrar_usuario` payload: `{ id?, nombre?, email? }`. */
  datatype UserData = UserData(id: Option<string>, nombre: Option<string>, email: Option<string>)

  /** One value of `usuariosConectados`. */
  datatype Entry = Entry(
    socketId: SocketId,
    id: string,
    nombre: string,
    email: Option<string>,
    conectadoEn: Timestamp)

  /** `usuariosConectados`, keyed by socket id in first-insertion order. */
  type Registry = OrderedMap<SocketId, Entry>

  const GuestPrefix: string := "Usuario_"

  /**
   * The temporary name a socket gets on connection: the guest prefix followed by
   * the first six characters of its id (`substring(0, 6)`, so fewer when the id
   * is shorter).
   */
  function InitialName(sid: SocketId): (r: string)
    ensures |r| == |GuestPrefix| + (if |sid| < 6 then |sid| else 6)
    ensures r[..|GuestPrefix|] == GuestPrefix
    ensures r[|GuestPrefix|..] <= sid
    ensures r != ""
  {
    GuestPrefix + sid[..if |sid| < 6 then |sid| else 6]
  }

  /** `email.split('@')[0]`: everything before the first `@`, or all of it. */
  function EmailLocalPart(email: string): (r: string)
    ensures r <= email
    ensures '@' !in r
    ensures |r| < |email| ==> email[|r|] == '@'
  {
    if email == [] || email[0] == '@' then []
    else [email[0]] + EmailLocalPart(email[1..])
  }

  /** `email?.split('@')[0]`: missing when the email is. */
  function EmailName(email: Option<string>): (r: Option<string>)
    ensures email.None? ==> r.None?
    ensures email.Some? ==> r.Some? && r.value <= email.value && '@' !in r.value
    ensures email.Some? ==> |r.value| == |email.value| || email.value[|r.value|] == '@'
  {
    if email.Some? then Some(EmailLocalPart(email.value)) else None
  }

  /**
   * The name a socket takes on announce: `nombre` when truthy, else the local
   * part of `email` when that is non-empty, else the socket's previous name.
   */
  function ResolveName(data: UserData, previous: string): (r: string)
    ensures Truthy(data.nombre) ==> r == data.nombre.value
    ensures !Truthy(data.nombre) && data.email.Some? && EmailLocalPart(data.email.value) != "" ==>
      r <= data.email.value && '@' !in r && r != "" &&
      (|r| == |data.email.value| || data.email.value[|r|] == '@')
    ensures !Truthy(data.nombre) && (data.email.None? || EmailLocalPart(data.email.value) == "") ==>
      r == previous
    ensures previous != "" ==> r != ""
  {
    OrElse(data.nombre, OrElse(EmailName(data.email), previous))
  }

  /** The registry entry written for socket `sid` on announce. */
  function MakeEntry(sid: SocketId, data: UserData, name: string, joinedAt: Timestamp): (e: Entry)
    ensures e.socketId == sid && e.nombre == name && e.conectadoEn == joinedAt
    ensures Truthy(data.id) ==> e.id == data.id.value
    ensures !Truthy(data.id) ==> e.id == sid
    ensures Truthy(data.email) ==> e.email == data.email
    ensures !Truthy(data.email) ==> e.email.None?
  {
    Entry(sid, OrElse(data.id, sid), name, OrNull(data.email), joinedAt)
  }
}
