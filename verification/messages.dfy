/**
 * The message table behind the hub (`prisma.mensaje`): the record a send stores,
 * the outcome of one `create`, and the `/api/messages` history query.
 */
module Messages {
  import opened JsValues

  /** A stored row; `id` and `fecha` are assigned by the store, never by the client. */
  datatype Message = Message(
    id: nat,
    contenido: string,
    usuarioId: string,
    email: Option<string>,
    fecha: int)

  /** The `enviar_mensaje` payload: `{ contenido, usuarioId?, email? }`. */
  datatype MessageData = MessageData(contenido: string, usuarioId: Option<string>, email: Option<string>)

  /** What one `create` call does: it stores the row with the given id and date, or throws. */
  datatype CreateOutcome = Created(id: nat, fecha: int) | CreateFailed

  const AnonymousAuthor: string := "Anonimo"

  /** The row `create` stores for a payload, with the store-assigned id and date. */
  function StoredMessage(data: MessageData, id: nat, fecha: int): (m: Message)
    ensures m.contenido == data.contenido
    ensures m.usuarioId != ""
    ensures Truthy(data.usuarioId) ==> m.usuarioId == data.usuarioId.value
    ensures !Truthy(data.usuarioId) ==> m.usuarioId == AnonymousAuthor
    ensures Truthy(data.email) ==> m.email == data.email
    ensures !Truthy(data.email) ==> m.email.None?
    ensures m.id == id && m.fecha == fecha
  {
    Message(id, data.contenido, OrElse(data.usuarioId, AnonymousAuthor), OrNull(data.email), fecha)
  }

  /** Dates never decrease along `s`. */
  ghost predicate SortedByDate(s: seq<Message>)
  {
    forall i, j :: 0 <= i < j < |s| ==> s[i].fecha <= s[j].fecha
  }

  /** A message no later than everything in a sorted sequence can go in front of it. */
  lemma PrependSorted(m: Message, s: seq<Message>)
    requires SortedByDate(s)
    requires forall x :: x in s ==> m.fecha <= x.fecha
    ensures SortedByDate([m] + s)
  {
    var r := [m] + s;
    forall i, j | 0 <= i < j < |r|
      ensures r[i].fecha <= r[j].fecha
    {
      assert r[j] == s[j - 1];
      if i > 0 {
        assert r[i] == s[i - 1];
      }
    }
  }

  /** Puts `m` into a date-sorted sequence, before every message of the same date. */
  function InsertByDate(m: Message, s: seq<Message>): (r: seq<Message>)
    requires SortedByDate(s)
    ensures SortedByDate(r)
    ensures multiset(r) == multiset(s) + multiset{m}
    ensures forall x :: x in r <==> x == m || x in s
  {
    if s == [] then [m]
    else if m.fecha <= s[0].fecha then
      PrependSorted(m, s);
      [m] + s
    else
      var rest := InsertByDate(m, s[1..]);
      assert s == [s[0]] + s[1..];
      PrependSorted(s[0], rest);
      [s[0]] + rest
  }

  /** In a date-sorted sequence, nothing before position `n` is later than anything from `n` on. */
  lemma SortedSplit(sorted: seq<Message>, n: nat)
    requires SortedByDate(sorted) && n <= |sorted|
    ensures forall x, y :: x in sorted[n..] && y in sorted[..n] ==> y.fecha <= x.fecha
  {
    forall x, y | x in sorted[n..] && y in sorted[..n]
      ensures y.fecha <= x.fecha
    {
      var j :| 0 <= j < |sorted| - n && sorted[n..][j] == x;
      var i :| 0 <= i < n && sorted[..n][i] == y;
      assert sorted[i] == y && sorted[n + j] == x;
    }
  }

  /**
   * The first `n` messages of a sorted sequence are sorted, come from it, and are
   * no later than any message left behind.
   */
  lemma OldestPrefix(sorted: seq<Message>, n: nat)
    requires SortedByDate(sorted) && n <= |sorted|
    ensures SortedByDate(sorted[..n])
    ensures multiset(sorted[..n]) <= multiset(sorted)
    ensures forall x, y :: x in multiset(sorted) - multiset(sorted[..n]) && y in sorted[..n] ==> y.fecha <= x.fecha
  {
    var r, rest := sorted[..n], sorted[n..];
    assert sorted == r + rest;
    assert multiset(sorted) == multiset(r) + multiset(rest);
    assert multiset(sorted) - multiset(r) == multiset(rest);
    SortedSplit(sorted, n);
  }

  /** `orderBy: { fecha: 'asc' }`: a stable sort on the date; rows of equal date keep their order. */
  function SortByDate(s: seq<Message>): (r: seq<Message>)
    ensures SortedByDate(r)
    ensures multiset(r) == multiset(s)
    ensures |r| == |s|
  {
    if s == [] then []
    else
      assert s == [s[0]] + s[1..];
      InsertByDate(s[0], SortByDate(s[1..]))
  }

  const HistoryLimit: nat := 50

  /**
   * `findMany({ take: 50, orderBy: { fecha: 'asc' } })`: the oldest fifty messages,
   * oldest first, or all of them when there are fewer.
   */
  function History(store: seq<Message>): (r: seq<Message>)
    ensures |r| == if |store| < HistoryLimit then |store| else HistoryLimit
    ensures SortedByDate(r)
    ensures multiset(r) <= multiset(store)
    ensures forall x, y :: x in multiset(store) - multiset(r) && y in r ==> y.fecha <= x.fecha
  {
    var sorted := SortByDate(store);
    var n := if |sorted| < HistoryLimit then |sorted| else HistoryLimit;
    OldestPrefix(sorted, n);
    sorted[..n]
  }

  /** The HTTP answer of `GET /api/messages`. */
  datatype HistoryResponse =
    | HistoryOk(mensajes: seq<Message>)
    | HistoryError(status: nat, error: string)

  /**
   * The `/api/messages` handler over the stored rows; `reachable` is false when
   * the store's query throws.
   */
  function GetMessages(store: seq<Message>, reachable: bool): (r: HistoryResponse)
    ensures reachable <==> r.HistoryOk?
    ensures r.HistoryOk? ==> r.mensajes == History(store)
    ensures r.HistoryError? ==> r.status == 500 && r.error == "Error al cargar mensajes"
  {
    if reachable then HistoryOk(History(store)) else HistoryError(500, "Error al cargar mensajes")
  }

  /** While at most fifty rows are stored, the history lists every one of them. */
  lemma {:induction false} ShortHistoryIsComplete(store: seq<Message>, m: Message)
    requires |store| <= HistoryLimit && m in store
    ensures m in History(store)
  {
    var sorted := SortByDate(store);
    assert sorted[..|sorted|] == sorted;
    assert m in multiset(sorted);
  }

  /** A value found at two different positions occurs at least twice. */
  lemma TwiceInSequence(s: seq<Message>, i: nat, j: nat)
    requires i < j < |s| && s[i] == s[j]
    ensures multiset(s)[s[i]] >= 2
  {
    var v := s[i];
    assert s == s[..j] + s[j..];
    assert v in s[..j] && v in s[j..];
    assert multiset(s)[v] == multiset(s[..j])[v] + multiset(s[j..])[v];
  }

  /**
   * The query as written keeps the oldest fifty rows: once more than fifty are
   * stored, a row stored once and newer than every other one is not listed.
   */
  lemma {:induction false} LongHistoryDropsNewest(store: seq<Message>, m: Message)
    requires |store| > HistoryLimit
    requires multiset(store)[m] == 1
    requires forall x :: x in store && x != m ==> x.fecha < m.fecha
    ensures m !in History(store)
  {
    var sorted := SortByDate(store);
    if m in sorted[..HistoryLimit] {
      var i :| 0 <= i < HistoryLimit && sorted[..HistoryLimit][i] == m;
      var last := sorted[HistoryLimit];
      assert sorted[i] == m;
      assert last in multiset(store);
      assert m.fecha <= last.fecha;
      if last == m {
        TwiceInSequence(sorted, i, HistoryLimit);
      }
      assert false;
    }
  }

  /**
   * The last `n` messages of a sorted sequence are sorted, come from it, and are
   * no earlier than any message left behind.
   */
  lemma NewestSuffix(sorted: seq<Message>, n: nat)
    requires SortedByDate(sorted) && n <= |sorted|
    ensures SortedByDate(sorted[|sorted| - n..])
    ensures multiset(sorted[|sorted| - n..]) <= multiset(sorted)
    ensures forall x, y :: x in multiset(sorted) - multiset(sorted[|sorted| - n..]) && y in sorted[|sorted| - n..] ==>
      x.fecha <= y.fecha
  {
    var k := |sorted| - n;
    var front, r := sorted[..k], sorted[k..];
    assert sorted == front + r;
    assert multiset(sorted) == multiset(front) + multiset(r);
    assert multiset(sorted) - multiset(r) == multiset(front);
    SortedSplit(sorted, k);
  }

  /**
   * The history the route is meant to load ("the last 50"): the newest fifty
   * rows, or all of them when there are fewer, oldest first.
   */
  function RecentHistory(store: seq<Message>): (r: seq<Message>)
    ensures |r| == if |store| < HistoryLimit then |store| else HistoryLimit
    ensures SortedByDate(r)
    ensures multiset(r) <= multiset(store)
    ensures forall x, y :: x in multiset(store) - multiset(r) && y in r ==> x.fecha <= y.fecha
  {
    var sorted := SortByDate(store);
    var n := if |sorted| < HistoryLimit then |sorted| else HistoryLimit;
    NewestSuffix(sorted, n);
    sorted[|sorted| - n..]
  }

  /** The newest row is always in the recent history, however many rows are stored. */
  lemma {:induction false} RecentHistoryListsNewest(store: seq<Message>, m: Message)
    requires m in store
    requires forall x :: x in store && x != m ==> x.fecha < m.fecha
    ensures m in RecentHistory(store)
  {
    var r := RecentHistory(store);
    assert r[0] in multiset(store);
    assert multiset(r)[m] == 0 ==> m in multiset(store) - multiset(r);
  }
}
