/**
 The WebSocket server: a client that subscribes is caught up from the database while live
 events go on arriving, and a watermark per client decides which live events it is sent.
 */
module WsServers {
  import opened Wrappers
  import opened BoardModel

  const RESYNC_THRESHOLD: nat := 500
  const MAX_CATCH_UP: nat := 500

  /**
   What the `lastSequence` string of a client means: to `BigInt`, which live delivery reads it
   with and which throws on what is no number, and to `parseInt`, which catch-up reads it with.
   */
  datatype Watermark = Watermark(asBigInt: Option<int>, asParseInt: Option<int>)

  /** A decimal numeral means the same to both. */
  function Numeral(value: int): Watermark {
    Watermark(Some(value), Some(value))
  }

  datatype Frame = Event(sequence: int) | Subscribed(catchUpCount: nat) | ResyncRequired

  datatype ClientView = ClientView(open: bool, watermark: Watermark, sent: seq<Frame>)

  /** A closed socket is sent nothing. */
  function Send(v: ClientView, frame: Frame): ClientView {
    if v.open then v.(sent := v.sent + [frame]) else v
  }

  /** A live event for one client: skipped at or below the watermark, otherwise sent. */
  function Live(v: ClientView, sequence: int): ClientView
    requires v.watermark.asBigInt.Some?
  {
    if sequence <= v.watermark.asBigInt.value then v
    else Send(v, Event(sequence)).(watermark := Numeral(sequence))
  }

  /** The event reaches client `i`: no watermark up to and including its own throws. */
  predicate Reaches(views: seq<ClientView>, i: nat)
    requires i < |views|
  {
    forall j :: 0 <= j <= i ==> views[j].watermark.asBigInt.Some?
  }

  /** A live event for client `i` of a board, whose clients are served in order. */
  function LiveAt(views: seq<ClientView>, i: nat, sequence: int): ClientView
    requires i < |views|
  {
    if Reaches(views, i) then Live(views[i], sequence) else views[i]
  }

  /** Catch-up rows are sent whatever the watermark is, and set it. */
  function DeliverRows(v: ClientView, rows: seq<int>): ClientView
    decreases |rows|
  {
    if rows == [] then v
    else
      var n := |rows| - 1;
      Send(DeliverRows(v, rows[..n]), Event(rows[n])).(watermark := Numeral(rows[n]))
  }

  /** One frame for each of the numbers, in their order. */
  function Events(numbers: seq<int>): seq<Frame> {
    seq(|numbers|, i requires 0 <= i < |numbers| => Event(numbers[i]))
  }

  lemma EventsOfLast(numbers: seq<int>)
    requires numbers != []
    ensures Events(numbers) == Events(numbers[..|numbers| - 1]) + [Event(numbers[|numbers| - 1])]
  {
  }

  /** An open client is sent one event for each row, in the order of the rows. */
  lemma {:induction false} DeliveredInOrder(v: ClientView, rows: seq<int>)
    ensures DeliverRows(v, rows) ==
            ClientView(v.open, if rows == [] then v.watermark else Numeral(rows[|rows| - 1]),
                       v.sent + if v.open then Events(rows) else [])
    decreases |rows|
  {
    if rows != [] {
      DeliveredInOrder(v, rows[..|rows| - 1]);
      EventsOfLast(rows);
    }
  }

  /** Where catch-up starts; a string that is no number, or a negative one, has no catch-up. */
  function CatchUpStart(w: Watermark): Option<int> {
    if w.asParseInt.Some? && w.asParseInt.value >= 0 then w.asParseInt else None
  }

  datatype CountAnswer = Resync | NothingMissed | Pull

  function AnswerToCount(totalMissed: nat): CountAnswer {
    if totalMissed > RESYNC_THRESHOLD then Resync
    else if totalMissed == 0 then NothingMissed
    else Pull
  }

  // ---------------------------------------------------------------------------
  // The server's handlers
  // ---------------------------------------------------------------------------

  class Client {
    var open: bool
    var boardId: Option<Id>
    var lastSequence: Watermark
    var sent: seq<Frame>

    constructor ()
      ensures open && boardId == None && lastSequence == Numeral(0) && sent == []
    {
      open, boardId, lastSequence, sent := true, None, Numeral(0), [];
    }

    function View(): ClientView
      reads this
    {
      ClientView(open, lastSequence, sent)
    }

    method SendFrame(frame: Frame)
      modifies this`sent
      ensures View() == Send(old(View()), frame)
      ensures sent == old(sent) + if open then [frame] else []
    {
      if open {
        sent := sent + [frame];
      }
    }

    /** A live event; `BigInt` throws on a watermark that is no number. */
    method Deliver(sequence: int) returns (threw: bool)
      modifies this`sent, this`lastSequence
      ensures threw <==> old(lastSequence).asBigInt.None?
      ensures View() == if threw then old(View()) else Live(old(View()), sequence)
      ensures var sends := !threw && open && sequence > old(lastSequence).asBigInt.value;
              sent == old(sent) + if sends then [Event(sequence)] else []
    {
      if lastSequence.asBigInt.None? {
        return true;
      }
      if sequence > lastSequence.asBigInt.value {
        SendFrame(Event(sequence));
        lastSequence := Numeral(sequence);
      }
      return false;
    }
  }

  function Views(clients: seq<Client>): (views: seq<ClientView>)
    reads set c | c in clients
    ensures |views| == |clients| && forall i :: 0 <= i < |views| ==> views[i] == clients[i].View()
  {
    if clients == [] then [] else [clients[0].View()] + Views(clients[1..])
  }

  function Remove<T(==)>(s: seq<T>, x: T): seq<T> {
    if s == [] then [] else (if s[0] == x then [] else [s[0]]) + Remove(s[1..], x)
  }

  lemma {:induction false} RemoveKeepsDistinct<T>(s: seq<T>, x: T)
    requires forall i, j :: 0 <= i < j < |s| ==> s[i] != s[j]
    ensures forall i, j :: 0 <= i < j < |Remove(s, x)| ==> Remove(s, x)[i] != Remove(s, x)[j]
    ensures forall y :: y in Remove(s, x) <==> y in s && y != x
    decreases |s|
  {
    if s != [] {
      RemoveKeepsDistinct(s[1..], x);
      assert s[0] !in s[1..];
    }
  }

  /** Removing an element of a sequence without repetitions keeps the others in their order. */
  lemma {:induction false} RemoveAt<T>(s: seq<T>, i: nat)
    requires i < |s| && forall j, k :: 0 <= j < k < |s| ==> s[j] != s[k]
    ensures Remove(s, s[i]) == s[..i] + s[i + 1..]
    decreases |s|
  {
    if i == 0 {
      RemoveAbsent(s[1..], s[0]);
    } else {
      var rest := s[1..];
      RemoveAt(rest, i - 1);
      assert rest[i - 1] == s[i] && s[0] != s[i];
      assert rest[..i - 1] == s[1..i] && rest[i..] == s[i + 1..];
      assert s[..i] == [s[0]] + s[1..i];
    }
  }

  lemma {:induction false} RemoveAbsent<T>(s: seq<T>, x: T)
    requires x !in s
    ensures Remove(s, x) == s
    decreases |s|
  {
    if s != [] {
      RemoveAbsent(s[1..], x);
    }
  }

  /** The registry without a client of a board; a set that becomes empty is dropped. */
  function Left(registry: map<Id, seq<Client>>, boardId: Option<Id>, client: Client): map<Id, seq<Client>> {
    if boardId.None? || boardId.value !in registry then registry
    else
      var rest := Remove(registry[boardId.value], client);
      if rest == [] then registry - {boardId.value} else registry[boardId.value := rest]
  }

  /** The registry with a client added as the last one of its board. */
  function JoinedLast(registry: map<Id, seq<Client>>, boardId: Id, client: Client): map<Id, seq<Client>> {
    registry[boardId := (if boardId in registry then registry[boardId] else []) + [client]]
  }

  /** The clients of a board in the order in which events are handed to them. */
  function Clients(registry: map<Id, seq<Client>>, boardId: Id): seq<Client> {
    if boardId in registry then registry[boardId] else []
  }

  ghost predicate Before<T>(s: seq<T>, x: T, y: T) {
    exists i, j :: 0 <= i < j < |s| && s[i] == x && s[j] == y
  }

  /** x is before y exactly if x comes first and y follows, or x is before y in what follows. */
  lemma BeforeIff<T>(first: T, rest: seq<T>, x: T, y: T)
    ensures Before([first] + rest, x, y) <==> (first == x && y in rest) || Before(rest, x, y)
  {
    var s := [first] + rest;
    if Before(s, x, y) {
      var i, j :| 0 <= i < j < |s| && s[i] == x && s[j] == y;
      assert rest[j - 1] == y;
      assert i > 0 ==> rest[i - 1] == x;
    }
    if first == x && y in rest {
      var j :| 0 <= j < |rest| && rest[j] == y;
      assert s[0] == x && s[j + 1] == y;
    }
    if Before(rest, x, y) {
      var i, j :| 0 <= i < j < |rest| && rest[i] == x && rest[j] == y;
      assert s[i + 1] == x && s[j + 1] == y;
    }
  }

  lemma {:induction false} RemoveKeepsBefore<T>(s: seq<T>, removed: T, x: T, y: T)
    requires x != removed && y != removed
    ensures y in Remove(s, removed) <==> y in s
    ensures Before(Remove(s, removed), x, y) <==> Before(s, x, y)
    decreases |s|
  {
    if s != [] {
      RemoveKeepsBefore(s[1..], removed, x, y);
      assert s == [s[0]] + s[1..];
      BeforeIff(s[0], s[1..], x, y);
      var rest := Remove(s[1..], removed);
      if s[0] == removed {
        assert Remove(s, removed) == rest;
      } else {
        BeforeIff(s[0], rest, x, y);
      }
    }
  }

  /** A client that registers is served after all others of its board, and these in their old order. */
  lemma RegistersLast(registry: map<Id, seq<Client>>, old': Option<Id>, client: Client, boardId: Id,
      b: Id, x: Client, y: Client)
    requires x != client && y != client
    ensures var after := JoinedLast(Left(registry, old', client), boardId, client);
            && Clients(after, boardId) != [] && Clients(after, boardId)[|Clients(after, boardId)| - 1] == client
            && (Before(Clients(after, b), x, y) <==> Before(Clients(registry, b), x, y))
  {
    var left := Left(registry, old', client);
    RemoveKeepsBefore(Clients(registry, b), client, x, y);
    assert Before(Clients(left, b), x, y) <==> Before(Clients(registry, b), x, y);
    AppendKeepsBefore(Clients(left, b), client, x, y);
  }

  lemma AppendKeepsBefore<T>(s: seq<T>, last: T, x: T, y: T)
    requires x != last && y != last
    ensures Before(s + [last], x, y) <==> Before(s, x, y)
  {
    var longer := s + [last];
    if Before(s, x, y) {
      var i, j :| 0 <= i < j < |s| && s[i] == x && s[j] == y;
      assert longer[i] == x && longer[j] == y;
    }
  }

  function Members(registry: map<Id, seq<Client>>, boardId: Id): set<Client> {
    if boardId in registry then set c | c in registry[boardId] else {}
  }

  /** Clients other than `client` are on the same boards before and after. */
  ghost predicate SameOthers(before: map<Id, seq<Client>>, after: map<Id, seq<Client>>, client: Client) {
    forall b :: Members(before, b) - {client} == Members(after, b) - {client}
  }

  class WsServer {
    /** Each board's clients, in the insertion order of the set. */
    var boardClients: map<Id, seq<Client>>
    var subscribedChannels: set<Id>

    constructor ()
      ensures boardClients == map[] && subscribedChannels == {}
      ensures Registered()
    {
      boardClients, subscribedChannels := map[], {};
    }

    /** The registry and the clients agree: a client is in the set of its board only, once. */
    ghost predicate Registered()
      reads this, set b, c | b in boardClients && c in boardClients[b] :: c
    {
      forall b :: b in boardClients ==>
        && boardClients[b] != []
        && (forall i, j :: 0 <= i < j < |boardClients[b]| ==> boardClients[b][i] != boardClients[b][j])
        && (forall c :: c in boardClients[b] ==> c.boardId == Some(b))
    }

    method Unsubscribe(client: Client)
      requires Registered()
      modifies this`boardClients, client`boardId
      ensures Registered()
      ensures client.boardId == None
      ensures boardClients == Left(old(boardClients), old(client.boardId), client)
      ensures forall b :: client !in Members(boardClients, b)
      ensures SameOthers(old(boardClients), boardClients, client)
      ensures forall b :: b in boardClients ==> b in old(boardClients)
    {
      if client.boardId.None? {
        return;
      }
      var boardId := client.boardId.value;
      if boardId in boardClients {
        RemoveKeepsDistinct(boardClients[boardId], client);
        var rest := Remove(boardClients[boardId], client);
        if |rest| == 0 {
          boardClients := boardClients - {boardId};
        } else {
          boardClients := boardClients[boardId := rest];
        }
      }
      client.boardId := None;
    }

    /** Adds a client that is in no set to the set of its board. */
    method Join(client: Client, boardId: Id)
      requires Registered() && client.boardId == Some(boardId)
      requires forall b :: client !in Members(boardClients, b)
      modifies this`boardClients
      ensures Registered() && client in Members(boardClients, boardId)
      ensures boardClients == JoinedLast(old(boardClients), boardId, client)
      ensures SameOthers(old(boardClients), boardClients, client)
    {
      var clients := if boardId in boardClients then boardClients[boardId] else [];
      assert client in clients ==> client in Members(boardClients, boardId);
      boardClients := boardClients[boardId := clients + [client]];
    }

    /** The part of a subscription before its first query: leave the old board, join the new. */
    method Register(client: Client, boardId: Id, lastSequence: Watermark)
      requires Registered()
      modifies this, client`boardId, client`lastSequence
      ensures Registered()
      ensures client in Members(boardClients, boardId) && boardId in subscribedChannels
      ensures client.View() == old(client.View()).(watermark := lastSequence)
      ensures boardClients == JoinedLast(Left(old(boardClients), old(client.boardId), client), boardId, client)
      ensures SameOthers(old(boardClients), boardClients, client)
    {
      if client.boardId.Some? {
        Unsubscribe(client);
      }
      client.boardId := Some(boardId);
      client.lastSequence := lastSequence;
      Join(client, boardId);
      subscribedChannels := subscribedChannels + {boardId};
    }

    /** Without a usable start there is nothing to catch up, and the client is acknowledged. */
    method BeginCatchUp(client: Client, lastSequence: Watermark) returns (since: Option<int>)
      modifies client`sent
      ensures since == CatchUpStart(lastSequence)
      ensures since.Some? <==> lastSequence.asParseInt.Some? && lastSequence.asParseInt.value >= 0
      ensures since.Some? ==> since == lastSequence.asParseInt
      ensures client.View() == if since.None? then Send(old(client.View()), Subscribed(0)) else old(client.View())
    {
      since := lastSequence.asParseInt;
      if since.None? || since.value < 0 {
        since := None;
        client.SendFrame(Subscribed(0));
      }
    }

    /** The answer to the count query: resync, done, or go on to pull the rows. */
    method AfterCount(client: Client, totalMissed: nat) returns (answer: CountAnswer)
      modifies client`sent
      ensures answer == AnswerToCount(totalMissed)
      ensures (answer == Resync <==> totalMissed > 500) && (answer == NothingMissed <==> totalMissed == 0)
      ensures client.View() == match answer
                               case Resync => Send(old(client.View()), ResyncRequired)
                               case NothingMissed => Send(old(client.View()), Subscribed(0))
                               case Pull => old(client.View())
    {
      if totalMissed > RESYNC_THRESHOLD {
        client.SendFrame(ResyncRequired);
        return Resync;
      }
      if totalMissed == 0 {
        client.SendFrame(Subscribed(0));
        return NothingMissed;
      }
      return Pull;
    }

    /** Sends the pulled rows in their order, then the acknowledgement; the last row is the watermark. */
    method AfterRows(client: Client, rows: seq<int>)
      modifies client`sent, client`lastSequence
      ensures client.View() == Send(DeliverRows(old(client.View()), rows), Subscribed(|rows|))
      ensures client.open ==>
                && |client.sent| == |old(client.sent)| + |rows| + 1 && old(client.sent) <= client.sent
                && (forall i :: 0 <= i < |rows| ==> client.sent[|old(client.sent)| + i] == Event(rows[i]))
                && client.sent[|client.sent| - 1] == Subscribed(|rows|)
      ensures !client.open ==> client.sent == old(client.sent)
      ensures client.lastSequence == if rows == [] then old(client.lastSequence) else Numeral(rows[|rows| - 1])
    {
      for i := 0 to |rows|
        invariant client.View() == DeliverRows(old(client.View()), rows[..i])
      {
        assert rows[..i + 1][..i] == rows[..i];
        client.SendFrame(Event(rows[i]));
        client.lastSequence := Numeral(rows[i]);
      }
      assert rows[..|rows|] == rows;
      DeliveredInOrder(old(client.View()), rows);
      client.SendFrame(Subscribed(|rows|));
    }

    /** A live event of a board: its clients in turn, up to the first whose watermark throws. */
    method OnEvent(boardId: Id, sequence: int)
      requires Registered()
      modifies (set c | c in Members(boardClients, boardId))`sent,
          (set c | c in Members(boardClients, boardId))`lastSequence
      ensures Registered() && boardClients == old(boardClients)
      ensures boardId in boardClients ==>
                var views := old(Views(boardClients[boardId]));
                forall i :: 0 <= i < |views| ==> boardClients[boardId][i].View() == LiveAt(views, i, sequence)
    {
      if boardId in boardClients {
        Broadcast(boardClients[boardId], sequence);
      }
    }
  }

  /** The event reaches exactly the clients before the first unreadable watermark. */
  lemma ReachesUpTo(views: seq<ClientView>, n: nat)
    requires n <= |views| && forall j :: 0 <= j < n ==> views[j].watermark.asBigInt.Some?
    requires n < |views| ==> views[n].watermark.asBigInt.None?
    ensures forall i :: 0 <= i < |views| ==> (Reaches(views, i) <==> i < n)
  {
  }

  method Broadcast(clients: seq<Client>, sequence: int)
    requires forall i, j :: 0 <= i < j < |clients| ==> clients[i] != clients[j]
    modifies (set c | c in clients)`sent, (set c | c in clients)`lastSequence
    ensures forall i :: 0 <= i < |clients| ==> clients[i].View() == LiveAt(old(Views(clients)), i, sequence)
  {
    var n := DeliverInTurn(clients, sequence);
    ReachesUpTo(old(Views(clients)), n);
  }

  /** Serves clients in turn, and returns how many before a watermark threw. */
  method DeliverInTurn(clients: seq<Client>, sequence: int) returns (n: nat)
    requires forall i, j :: 0 <= i < j < |clients| ==> clients[i] != clients[j]
    modifies (set c | c in clients)`sent, (set c | c in clients)`lastSequence
    ensures n <= |clients|
    ensures forall j :: 0 <= j < n ==> old(clients[j].View()).watermark.asBigInt.Some?
    ensures n < |clients| ==> old(clients[n].View()).watermark.asBigInt.None?
    ensures forall j :: 0 <= j < n ==> clients[j].View() == Live(old(clients[j].View()), sequence)
    ensures forall j :: n <= j < |clients| ==> clients[j].View() == old(clients[j].View())
  {
    n := 0;
    while n < |clients|
      invariant n <= |clients|
      invariant forall j :: 0 <= j < n ==> old(clients[j].View()).watermark.asBigInt.Some?
      invariant forall j :: 0 <= j < n ==> clients[j].View() == Live(old(clients[j].View()), sequence)
      invariant forall j :: n <= j < |clients| ==> clients[j].View() == old(clients[j].View())
    {
      var threw := clients[n].Deliver(sequence);
      if threw {
        return;
      }
      n := n + 1;
    }
  }

  // ---------------------------------------------------------------------------
  // Live events alone
  // ---------------------------------------------------------------------------

  function LiveRun(v: ClientView, arrivals: seq<int>): (r: ClientView)
    requires v.watermark.asBigInt.Some?
    ensures r.watermark.asBigInt.Some?
    decreases |arrivals|
  {
    if arrivals == [] then v else Live(LiveRun(v, arrivals[..|arrivals| - 1]), arrivals[|arrivals| - 1])
  }

  predicate Ascending(numbers: seq<int>) {
    forall i, j :: 0 <= i < j < |numbers| ==> numbers[i] < numbers[j]
  }

  /**
   What live events alone add to an open client: frames for some of those that arrived, above the
   watermark, strictly ascending, so each once; the last of them is the new watermark.
   */
  lemma {:induction false} LiveFramesAscend(v: ClientView, arrivals: seq<int>) returns (numbers: seq<int>)
    requires v.open && v.watermark.asBigInt.Some?
    ensures LiveRun(v, arrivals).open && LiveRun(v, arrivals).sent == v.sent + Events(numbers)
    ensures Ascending(numbers) && forall i :: 0 <= i < |numbers| ==>
              && numbers[i] in arrivals && v.watermark.asBigInt.value < numbers[i]
              && numbers[i] <= LiveRun(v, arrivals).watermark.asBigInt.value
    ensures LiveRun(v, arrivals).watermark == if numbers == [] then v.watermark else Numeral(numbers[|numbers| - 1])
    decreases |arrivals|
  {
    if arrivals == [] {
      numbers := [];
    } else {
      var before, s := arrivals[..|arrivals| - 1], arrivals[|arrivals| - 1];
      var some := LiveFramesAscend(v, before);
      if s > LiveRun(v, before).watermark.asBigInt.value {
        numbers := some + [s];
        assert numbers[..|numbers| - 1] == some;
        EventsOfLast(numbers);
      } else {
        numbers := some;
      }
    }
  }

  ghost predicate AllSent(v: ClientView, sequences: seq<int>) {
    forall i :: 0 <= i < |sequences| ==> Event(sequences[i]) in v.sent
  }

  /** Whatever arrives after a higher event has arrived before it already. */
  predicate FirstsIncrease(sequences: seq<int>) {
    forall i, j :: 0 <= i < j < |sequences| && sequences[j] < sequences[i] ==> sequences[j] in sequences[..i]
  }

  lemma {:induction false} LiveRunState(v: ClientView, arrivals: seq<int>)
    requires v.open && v.watermark.asBigInt.Some?
    ensures var r := LiveRun(v, arrivals);
            && r.open
            && r.watermark.asBigInt.value >= v.watermark.asBigInt.value
            && (forall i :: 0 <= i < |arrivals| ==> arrivals[i] <= r.watermark.asBigInt.value)
            && (r.watermark.asBigInt.value == v.watermark.asBigInt.value || r.watermark.asBigInt.value in arrivals)
            && (forall s :: Event(s) in r.sent ==> Event(s) in v.sent || s in arrivals)
            && (forall f :: f in v.sent ==> f in r.sent)
    decreases |arrivals|
  {
    if arrivals != [] {
      LiveRunState(v, arrivals[..|arrivals| - 1]);
    }
  }

  predicate NewTo(v: ClientView, arrivals: seq<int>)
    requires v.watermark.asBigInt.Some?
  {
    forall i :: 0 <= i < |arrivals| ==> arrivals[i] > v.watermark.asBigInt.value && Event(arrivals[i]) !in v.sent
  }

  lemma BelowNext(v: ClientView, arrivals: seq<int>)
    requires v.open && v.watermark.asBigInt.Some? && NewTo(v, arrivals) && FirstsIncrease(arrivals)
    requires arrivals != [] && arrivals[|arrivals| - 1] !in arrivals[..|arrivals| - 1]
    ensures var n := |arrivals| - 1;
            LiveRun(v, arrivals[..n]).open && LiveRun(v, arrivals[..n]).watermark.asBigInt.value < arrivals[n]
  {
    var n := |arrivals| - 1;
    LiveRunState(v, arrivals[..n]);
    forall i | 0 <= i < n
      ensures arrivals[i] < arrivals[n]
    {
      assert arrivals[..n][i] == arrivals[i];
      assert forall x :: x in arrivals[..i] ==> x in arrivals[..n];
    }
  }

  lemma FirstsIncreaseBefore(arrivals: seq<int>, n: nat)
    requires FirstsIncrease(arrivals) && n <= |arrivals|
    ensures FirstsIncrease(arrivals[..n])
  {
    var before := arrivals[..n];
    forall i, j | 0 <= i < j < |before| && before[j] < before[i]
      ensures before[j] in before[..i]
    {
      assert before[..i] == arrivals[..i];
    }
  }

  lemma {:induction false} IncreasingIsLossless(v: ClientView, arrivals: seq<int>)
    requires v.open && v.watermark.asBigInt.Some? && NewTo(v, arrivals) && FirstsIncrease(arrivals)
    ensures AllSent(LiveRun(v, arrivals), arrivals)
    decreases |arrivals|
  {
    if arrivals != [] {
      var n := |arrivals| - 1;
      var before := LiveRun(v, arrivals[..n]);
      FirstsIncreaseBefore(arrivals, n);
      IncreasingIsLossless(v, arrivals[..n]);
      LiveRunState(v, arrivals[..n]);
      if arrivals[n] !in arrivals[..n] {
        BelowNext(v, arrivals);
      }
      forall i | 0 <= i < n
        ensures Event(arrivals[i]) in Live(before, arrivals[n]).sent
      {
        assert arrivals[..n][i] == arrivals[i];
      }
    }
  }

  /** A new event that has not arrived before a higher one is never sent afterwards. */
  lemma {:induction false} OvertakenIsLost(v: ClientView, arrivals: seq<int>, i: nat, late: int)
    requires v.open && v.watermark.asBigInt.Some? && Event(late) !in v.sent
    requires i < |arrivals| && late < arrivals[i] && late !in arrivals[..i]
    ensures Event(late) !in LiveRun(v, arrivals).sent
    decreases |arrivals|
  {
    var n := |arrivals| - 1;
    LiveRunState(v, arrivals[..n]);
    if i < n {
      assert arrivals[..n][..i] == arrivals[..i];
      assert arrivals[..n][i] == arrivals[i];
      OvertakenIsLost(v, arrivals[..n], i, late);
    }
  }

  /**
   Live delivery alone is lossless exactly for increasing first arrivals: of new events above
   the watermark, which may arrive repeatedly, all are sent if and only if none arrives for the
   first time after a higher one.
   */
  lemma LosslessIffIncreasing(v: ClientView, arrivals: seq<int>)
    requires v.open && v.watermark.asBigInt.Some? && NewTo(v, arrivals)
    ensures AllSent(LiveRun(v, arrivals), arrivals) <==> FirstsIncrease(arrivals)
  {
    if FirstsIncrease(arrivals) {
      IncreasingIsLossless(v, arrivals);
    } else {
      var i, j :| 0 <= i < j < |arrivals| && arrivals[j] < arrivals[i] && arrivals[j] !in arrivals[..i];
      OvertakenIsLost(v, arrivals, i, arrivals[j]);
    }
  }
}
