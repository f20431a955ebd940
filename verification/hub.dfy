/**
 * The socket hub: the `connection` handler and the `registrar_usuario`,
 * `pedir_usuarios_online`, `enviar_mensaje` and `disconnect` handlers, each one
 * atomic step over the registry, the per-socket names, the message table and
 * the log of emitted events.
 */
module ChatHub {
  import opened JsValues
  import opened OrderedMaps
  import opened Presence
  import opened Messages

  /** `io.emit` reaches every socket; `socket.emit` only its own socket. */
  datatype Recipient = Everyone | Only(sid: SocketId)

  /**
   * The payload of an outbound event. The system notices also carry the constant
   * fields `tipo: 'sistema'` and `evento`, which the event name determines.
   */
  datatype Payload =
    | UserJoined(mensaje: string, usuario: Entry, timestamp: Timestamp)
    | UserLeft(mensaje: string, timestamp: Timestamp)
    | UsuariosOnline(usuarios: seq<Entry>, total: nat)
    | NuevoMensaje(row: Message)
    | ErrorEnvio(mensaje: string)

  datatype Event = Event(to: Recipient, name: string, payload: Payload)

  const SendFailedText: string := "No se pudo guardar tu mensaje"

  /** `"<name> se ha unido"`. */
  function JoinedText(name: string): (r: string)
    ensures |r| == |name| + 12 && r[..|name|] == name && r[|name|..] == " se ha unido"
  {
    name + " se ha unido"
  }

  /** `"<name> se ha desconectado"`. */
  function LeftText(name: string): (r: string)
    ensures |r| == |name| + 19 && r[..|name|] == name && r[|name|..] == " se ha desconectado"
  {
    name + " se ha desconectado"
  }

  /**
   * The `usuarios_online` payload: every registry entry in first-insertion order,
   * with `total` the registry's size, which is also the list's length.
   */
  function OnlineSnapshot(reg: Registry): (p: Payload)
    requires reg.Valid()
    ensures p.UsuariosOnline?
    ensures p.total == |p.usuarios| == |reg.keys| == |reg.vals|
    ensures forall i :: 0 <= i < |p.usuarios| ==> p.usuarios[i] == reg.vals[reg.keys[i]]
  {
    DistinctCardinality(reg.keys);
    assert reg.vals.Keys == set x | x in reg.keys;
    UsuariosOnline(reg.Values(), reg.Size())
  }

  /** The two broadcasts of an announce: the join notice, then the new snapshot. */
  function AnnounceEvents(name: string, entry: Entry, sentAt: Timestamp, reg: Registry): (evs: seq<Event>)
    requires reg.Valid()
    ensures |evs| == 2 && evs[0].to == Everyone && evs[1].to == Everyone
    ensures evs[0].name == "user_joined" && evs[0].payload == UserJoined(name + " se ha unido", entry, sentAt)
    ensures evs[1].name == "usuarios_online" && evs[1].payload.UsuariosOnline?
    ensures evs[1].payload.total == reg.Size() && evs[1].payload.usuarios == reg.Values()
  {
    [ Event(Everyone, "user_joined", UserJoined(JoinedText(name), entry, sentAt)),
      Event(Everyone, "usuarios_online", OnlineSnapshot(reg)) ]
  }

  /** The two broadcasts of a disconnect: the leave notice, then the new snapshot. */
  function LeaveEvents(name: string, sentAt: Timestamp, reg: Registry): (evs: seq<Event>)
    requires reg.Valid()
    ensures |evs| == 2 && evs[0].to == Everyone && evs[1].to == Everyone
    ensures evs[0].name == "user_left" && evs[0].payload == UserLeft(name + " se ha desconectado", sentAt)
    ensures evs[1].name == "usuarios_online" && evs[1].payload.UsuariosOnline?
    ensures evs[1].payload.total == reg.Size() && evs[1].payload.usuarios == reg.Values()
  {
    [ Event(Everyone, "user_left", UserLeft(LeftText(name), sentAt)),
      Event(Everyone, "usuarios_online", OnlineSnapshot(reg)) ]
  }

  /**
   * Every registry entry belongs to an open socket, is keyed by its own socket
   * id and carries that socket's current name; no socket's name is empty.
   */
  ghost predicate Consistent(usuarios: Registry, names: map<SocketId, string>, connected: set<SocketId>)
  {
    && usuarios.Valid()
    && connected <= names.Keys
    && (forall sid :: sid in usuarios.vals ==> sid in connected)
    && (forall sid :: sid in usuarios.vals ==>
          usuarios.vals[sid].socketId == sid && usuarios.vals[sid].nombre == names[sid])
    && (forall sid :: sid in names ==> names[sid] != "")
  }

  /** An announce that stores a non-empty name and the matching entry keeps the registry consistent. */
  lemma AnnounceKeepsConsistent(
    usuarios: Registry, names: map<SocketId, string>, connected: set<SocketId>,
    sid: SocketId, name: string, entry: Entry)
    requires Consistent(usuarios, names, connected) && sid in connected
    requires name != "" && entry.socketId == sid && entry.nombre == name
    ensures Consistent(usuarios.Set(sid, entry), names[sid := name], connected)
  {
    var u := usuarios.Set(sid, entry);
    assert u.vals == usuarios.vals[sid := entry];
  }

  class Hub {
    /** `usuariosConectados`. */
    var usuarios: Registry
    /** `socket.data.nombreUsuario` of every socket that has connected. */
    var names: map<SocketId, string>
    /** The sockets whose connection is still open (kept by the transport). */
    ghost var connected: set<SocketId>
    /** The rows of the message table, in the order they were created. */
    var messages: seq<Message>
    /** Every event emitted so far, in emission order. */
    var log: seq<Event>

    /** The hub's state is consistent (see `Consistent`). */
    ghost predicate Valid()
      reads this
    {
      Consistent(usuarios, names, connected)
    }

    /** A hub at process start: nobody online, nothing stored, nothing emitted. */
    constructor ()
      ensures Valid()
      ensures usuarios == Empty() && names == map[] && connected == {}
      ensures messages == [] && log == []
    {
      usuarios := Empty();
      names := map[];
      connected := {};
      messages := [];
      log := [];
    }

    /** `io.on('connection')`: the new socket gets its temporary name and nothing is emitted. */
    method Connect(sid: SocketId)
      requires Valid() && sid !in names
      modifies this
      ensures Valid()
      ensures names == old(names)[sid := InitialName(sid)]
      ensures connected == old(connected) + {sid}
      ensures usuarios == old(usuarios) && messages == old(messages) && log == old(log)
    {
      names := names[sid := InitialName(sid)];
      connected := connected + {sid};
    }

    /**
     * `registrar_usuario`: resolve the socket's name, upsert its registry entry,
     * then broadcast `user_joined` followed by the updated `usuarios_online`.
     */
    method Register(sid: SocketId, data: UserData, joinedAt: Timestamp, sentAt: Timestamp)
      requires Valid() && sid in connected
      modifies this
      ensures Valid()
      ensures names == old(names)[sid := ResolveName(data, old(names)[sid])]
      ensures usuarios == old(usuarios).Set(sid, MakeEntry(sid, data, names[sid], joinedAt))
      ensures usuarios.Get(sid) == Some(MakeEntry(sid, data, names[sid], joinedAt))
      ensures log == old(log) + AnnounceEvents(names[sid], MakeEntry(sid, data, names[sid], joinedAt), sentAt, usuarios)
      ensures connected == old(connected) && messages == old(messages)
    {
      var previous := names[sid];
      var name := ResolveName(data, previous);
      names := names[sid := name];
      var entry := MakeEntry(sid, data, name, joinedAt);
      AnnounceKeepsConsistent(usuarios, old(names), connected, sid, name, entry);
      usuarios := usuarios.Set(sid, entry);
      log := log + AnnounceEvents(name, entry, sentAt, usuarios);
    }

    /** `pedir_usuarios_online`: the current snapshot goes to the asking socket only. */
    method RequestOnline(sid: SocketId)
      requires Valid() && sid in connected
      modifies this
      ensures Valid()
      ensures log == old(log) + [Event(Only(sid), "usuarios_online", OnlineSnapshot(usuarios))]
      ensures usuarios == old(usuarios) && names == old(names) && connected == old(connected)
      ensures messages == old(messages)
    {
      log := log + [Event(Only(sid), "usuarios_online", OnlineSnapshot(usuarios))];
    }

    /**
     * `enviar_mensaje`: ask the store to create the row; on success broadcast the
     * stored row, on failure tell the sender only and store nothing.
     */
    method SendMessage(sid: SocketId, data: MessageData, outcome: CreateOutcome)
      requires Valid() && sid in connected
      modifies this
      ensures Valid()
      ensures outcome.Created? ==>
        && messages == old(messages) + [StoredMessage(data, outcome.id, outcome.fecha)]
        && log == old(log) + [Event(Everyone, "nuevo_mensaje", NuevoMensaje(messages[|messages| - 1]))]
      ensures outcome.CreateFailed? ==>
        && messages == old(messages)
        && log == old(log) + [Event(Only(sid), "error_envio", ErrorEnvio(SendFailedText))]
      ensures usuarios == old(usuarios) && names == old(names) && connected == old(connected)
    {
      match outcome
      case Created(id, fecha) =>
        var stored := StoredMessage(data, id, fecha);
        messages := messages + [stored];
        log := log + [Event(Everyone, "nuevo_mensaje", NuevoMensaje(stored))];
      case CreateFailed =>
        log := log + [Event(Only(sid), "error_envio", ErrorEnvio(SendFailedText))];
    }

    /**
     * `disconnect`: drop the socket's registry entry if it has one, then broadcast
     * `user_left` with its last name followed by the updated `usuarios_online`.
     */
    method Disconnect(sid: SocketId, sentAt: Timestamp)
      requires Valid() && sid in names
      modifies this
      ensures Valid()
      ensures usuarios == old(usuarios).Delete(sid)
      ensures connected == old(connected) - {sid}
      ensures names == old(names) && messages == old(messages)
      ensures log == old(log) + LeaveEvents(names[sid], sentAt, usuarios)
    {
      var lastName := names[sid];
      usuarios := usuarios.Delete(sid);
      connected := connected - {sid};
      log := log + LeaveEvents(lastName, sentAt, usuarios);
    }
  }
}
