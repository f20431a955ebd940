# TalkNet presence-and-message hub, modelled in Dafny

This project models the realtime hub of the TalkNet chat server (`backend/index.js`).
The hub keeps `usuariosConectados`, an in-memory registry of who is online, keyed by
socket id in first-insertion order. Each socket also carries a display name in
`socket.data.nombreUsuario`. The hub stores chat messages through the message table
and emits events to every socket (`io.emit`) or to one socket (`socket.emit`).

The model has five modules:

- `JsValues`: optional payload fields and JavaScript truthiness, for `x || y` and `x || null`.
- `OrderedMaps`: an insertion-ordered map with the semantics of a JavaScript `Map`.
  `set` keeps the position of a key that is already there and appends a new one.
  `delete` keeps the order of the other keys. `values()` walks the keys in order.
  Lemmas prove how `values()` changes under `set` and `delete`. They also prove that
  a repeated `delete` is a no-op and that `set` followed by `delete` of a new key
  restores the map.
- `Presence`: the temporary name a socket gets on connection, the name-fallback
  rule on announce, and the registry entry.
- `Messages`: the row `create` stores and the outcome of one `create` call. Also the
  `GET /api/messages` query: the oldest fifty rows by `fecha`, oldest first, or a 500
  response when the query fails.
- `ChatHub`: the event log entries and the `Hub` class. The class has one method per
  socket handler: `Connect`, `Register` (`registrar_usuario`), `RequestOnline`
  (`pedir_usuarios_online`), `SendMessage` (`enviar_mensaje`) and `Disconnect`.
  Each handler is one atomic step. It states the whole new state of the registry,
  the names, the message rows and the event log. The object invariant `Valid` holds
  across every step. It says that every registry entry belongs to an open socket,
  is keyed by its own socket id and carries that socket's current name, and that no
  socket's name is ever empty.

The outcome of the store's `create` is a parameter of `SendMessage`
(`Created(id, fecha)` or `CreateFailed`). The query's reachability is a parameter of
`GetMessages`. The clock's ISO strings are parameters of the handlers that stamp
them.

## Model

| member | source | states |
|---|---|---|
| `JsValues.OrElse` | backend/index.js:138 | JavaScript `or` with a fallback: the value when present and non-empty, otherwise the fallback |
| `JsValues.OrNull` | backend/index.js:97 | JavaScript `or null`: a present non-empty value is kept, anything else becomes null; an empty string is never kept |
| `Presence.InitialName` | backend/index.js:79 | the connection name is `Usuario_` followed by the first six characters of the socket id (fewer if the id is shorter); never empty |
| `Presence.EmailLocalPart` | backend/index.js:89 | `split('@')[0]`: a prefix of the email, free of `@`, followed in the email by `@` or by nothing |
| `Presence.EmailName` | backend/index.js:89 | `email?.split('@')[0]`: missing when the email is missing, otherwise the whole text before the first `@` (all of it when there is none) |
| `Presence.ResolveName` | backend/index.js:87-90 | the announced name is `nombre` if truthy, else the email part before the first `@` if non-empty, else the previous name; a non-empty previous name never yields an empty name |
| `Presence.MakeEntry` | backend/index.js:93-99 | the entry carries the socket id and the resolved name and the join time; `id` is the given one when truthy, else the socket id; `email` is the given one when truthy, else null |
| `OrderedMaps.Empty` | backend/index.js:26 | the registry starts valid and empty |
| `OrderedMaps.OrderedMap.Size` | backend/index.js:117 | `size` is the number of keys in insertion order |
| `OrderedMaps.OrderedMap.Values` | backend/index.js:116 | `Array.from(values())` has one value per key, in key order, and its length is `size` |
| `OrderedMaps.OrderedMap.Set` | backend/index.js:93-99 | upsert: the key maps to the new value, every other key reads as before, size grows by one only for a new key |
| `OrderedMaps.OrderedMap.Get` | backend/index.js:110 | `Map.prototype.get`: the stored value for a present key, missing otherwise |
| `OrderedMaps.OrderedMap.Delete` | backend/index.js:159 | the key reads as absent, every other key reads as before, size shrinks by one only if the key was there |
| `OrderedMaps.RemoveKey` | backend/index.js:159 | the key order after a delete holds exactly the other keys, without repetitions, and is unchanged when the key is absent |
| `OrderedMaps.RemoveKeyAt` | backend/index.js:159 | deleting the key at position i splices exactly that position out of the key order |
| `OrderedMaps.DistinctCardinality` | backend/index.js:117 | a key order without repetitions is as long as the set of its keys, so the snapshot length equals the map size |
| `OrderedMaps.SetValues` | backend/index.js:93-99 | re-announcing keeps the entry's position and replaces only its value; a first announce appends its entry after all others |
| `OrderedMaps.DeleteValues` | backend/index.js:159 | a disconnect removes exactly that socket's entry from the snapshot and keeps the others' order |
| `OrderedMaps.DeleteAbsent` | backend/index.js:159 | deleting a socket that is not in the registry leaves the registry unchanged |
| `OrderedMaps.DeleteIdempotent` | backend/index.js:154-159 | a second disconnect of the same socket leaves the registry as the first left it |
| `OrderedMaps.SetThenDelete` | backend/index.js:159 | a socket's first announce followed by its disconnect restores the registry exactly |
| `ChatHub.JoinedText` | backend/index.js:109 | the join notice is the name followed by ` se ha unido` |
| `ChatHub.LeftText` | backend/index.js:168 | the leave notice is the name followed by ` se ha desconectado` |
| `ChatHub.OnlineSnapshot` | backend/index.js:115-118 | the `usuarios_online` payload lists every entry in first-insertion order, and `total` equals the list length and the registry size |
| `ChatHub.AnnounceEvents` | backend/index.js:106-118 | an announce emits exactly two broadcasts: `user_joined` with `"<name> se ha unido"` and the entry, then `usuarios_online` with the post-update snapshot |
| `ChatHub.LeaveEvents` | backend/index.js:165-176 | a disconnect emits exactly two broadcasts: `user_left` with `"<name> se ha desconectado"`, then `usuarios_online` with the post-delete snapshot |
| `ChatHub.AnnounceKeepsConsistent` | backend/index.js:87-99 | storing a non-empty name together with an entry keyed by the socket and carrying that name keeps every entry on an open socket, keyed by its own id and named as its socket |
| `ChatHub.Hub.constructor` | backend/index.js:26 | at process start nobody is online, nothing is stored and nothing has been emitted |
| `ChatHub.Hub.Connect` | backend/index.js:77-80 | a new socket gets its temporary name; registry, rows and log are unchanged |
| `ChatHub.Hub.Register` | backend/index.js:85-119 | the name is resolved and stored; exactly one entry is upserted under the socket id, with `id` defaulting to the socket id and `email` to null; the join notice and the snapshot are appended in that order; the invariant is kept |
| `ChatHub.Hub.RequestOnline` | backend/index.js:123-128 | exactly one `usuarios_online` goes to the asking socket only; registry, names and rows are unchanged |
| `ChatHub.Hub.SendMessage` | backend/index.js:131-151 | on a successful create, exactly one row is stored and exactly one `nuevo_mensaje` with that row is broadcast; on failure, nothing is stored and exactly one `error_envio` goes to the sender only |
| `ChatHub.Hub.Disconnect` | backend/index.js:154-177 | only that socket's key is deleted (a no-op when absent); `user_left` with its last name, then the snapshot, are broadcast; names and rows are unchanged |
| `Messages.StoredMessage` | backend/index.js:135-141 | the stored row keeps `contenido` as sent; `usuarioId` is the given one or `Anonimo`, never empty; `email` is the given one when truthy, else null; `id` and `fecha` come from the store |
| `Messages.InsertByDate` | backend/index.js:61 | inserting into a date-sorted sequence keeps it sorted and adds exactly that message |
| `Messages.SortByDate` | backend/index.js:61 | ordering by `fecha` ascending yields a sorted permutation of the rows |
| `Messages.SortedSplit` | backend/index.js:61 | in a date-sorted sequence no row before a position is later than any row from it on |
| `Messages.OldestPrefix` | backend/index.js:60-61 | the first n rows of a date-sorted sequence are sorted and no later than any row left out |
| `Messages.History` | backend/index.js:59-62 | the query returns min(50, rows) rows, sorted by `fecha`, drawn from the table, and none is later than a row it leaves out |
| `Messages.GetMessages` | backend/index.js:57-67 | a reachable store gives 200 with exactly the rows of `History` (the oldest fifty, oldest first); a failing query gives 500 with `Error al cargar mensajes` |
| `Messages.ShortHistoryIsComplete` | backend/index.js:59-62 | while the table holds at most fifty rows, every stored row, a just-sent one included, is in the history |
| `Messages.LongHistoryDropsNewest` | backend/index.js:59-61 | as written, once more than fifty rows are stored, the newest row (stored once) is not in the history |
| `Messages.NewestSuffix` | backend/index.js:60-61 | the last n rows of a date-sorted sequence are sorted and no earlier than any row left out |
| `Messages.RecentHistory` | backend/index.js:59-62 | the newest fifty rows (all if fewer), oldest first, drawn from the table, none earlier than a row left out |
| `Messages.RecentHistoryListsNewest` | backend/index.js:59-62 | the newest row is always in the recent history, whatever the table's size |

## Findings

| source | as written | input that shows it | evidently intended | confidence | as-written member | corrected member |
|---|---|---|---|---|---|---|
| backend/index.js:59-61 | the comment asks to load the last 50 messages, but `take: 50` with `orderBy: { fecha: 'asc' }` returns the oldest 50 | 51 stored rows, the newest stored once and later than all others: it is not in the history, so a just-sent message stops appearing once the table passes fifty rows | the newest fifty rows, listed oldest first | high; not executed | `Messages.LongHistoryDropsNewest` | `Messages.RecentHistory`, with `Messages.RecentHistoryListsNewest` |

`GetMessages` keeps the query as the code runs it, over `History`. `RecentHistory` is the corrected query, and `RecentHistoryListsNewest` proves the intended property about it.

## Left out

- Express, the HTTP server, CORS, `listen` and the static root page (backend/index.js:15-22, 70-72, 180-182): transport plumbing.
- The Redis pub/sub adapter and its fallback (backend/index.js:30-53): a network client of a foreign library. Broadcasts go to `Everyone`, whichever adapter carries them.
- Interleaving of the `async` handlers across sockets: each handler is one atomic step, including `enviar_mensaje`'s await on the store.
- Prisma internals: the outcome of `create` and the reachability of `findMany` are parameters. The store's promise that ids are unique and the schema's own validation are not modelled. Any rejection by the store appears as `CreateFailed`. `MessageData.contenido` is a plain string, so a payload without `contenido` cannot be represented.
- The clock: `new Date().toISOString()` values are opaque `Timestamp` parameters. `conectadoEn` and the notice's `timestamp` come from separate calls, so they are separate parameters.
- `console` logging (backend/index.js:80, 101-102, 156, 161, 147, 65): side output only.
- The constant fields `tipo: 'sistema'` and `evento` of the system notices: the payload constructor and the event name determine them.
- Payloads that are not objects, and fields that are not strings. The model takes each payload as an object whose fields are strings or missing. JavaScript would throw a `TypeError` on `datosUsuario.nombre` for an `undefined` payload, and applies its truthiness to numbers and other values.
- `contenido` validation: the code passes `contenido` straight to the store (backend/index.js:137), with no check for empty or whitespace-only text. The model does the same.
- `History`: the order of rows with equal `fecha` is left to the database in the source. The model keeps them in insertion order.
- `InitialName`: `substring` counts UTF-16 code units. The model counts Dafny characters, which agree for the ASCII socket ids the transport issues.
- The socket lifecycle: the transport delivers `registrar_usuario`, `pedir_usuarios_online` and `enviar_mensaje` only to open sockets. The model's ghost set `connected` records this, and the handlers require it. `disconnect` only requires that the socket once connected, so a repeated disconnect is allowed.
- frontend/src/stores/user.js, frontend/src/stores/chat.js and frontend/src/router/index.js: an authentication provider, browser storage, a `fetch` wrapper and a router table, outside the hub.
