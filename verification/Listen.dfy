/** The listen table: a pool of listening sockets and an accept queue for each port, over a socket
    set whose TCP states change underneath. */
module ListenTables {
  import opened Common

  const LISTEN_QUEUE_SIZE: nat := 128

  /** The states of section 3.3.2 of RFC 9293. */
  datatype TcpState = Closed | Listen | SynSent | SynReceived | Established | FinWait1 | FinWait2 | CloseWait | Closing | LastAck | TimeWait
  datatype Socket = Socket(state: TcpState, hasEndpoints: bool)
  datatype Errno = EADDRINUSE | ECONNREFUSED | EAGAIN
  datatype Result<T> = Ok(value: T) | Err(error: Errno)

  type Handle = nat
  type Sockets = map<Handle, Socket>

  datatype Entry = Entry(listening: seq<Handle>, queued: seq<Handle>, limit: nat)

  function Clamp(backlog: nat): nat {
    if backlog < 1 then 1 else if backlog > LISTEN_QUEUE_SIZE then LISTEN_QUEUE_SIZE else backlog
  }

  predicate Connected(s: Sockets, h: Handle) {
    h in s && s[h].state == Established
  }

  predicate Pending(s: Sockets, h: Handle) {
    h in s && (s[h].state == Listen || s[h].state == SynReceived)
  }

  /** A queued connection that `accept` can return. */
  predicate Usable(s: Sockets, h: Handle) {
    h in s && s[h].state != Closed && s[h].hasEndpoints
  }

  /** Connected listeners, or the waiting ones. */
  predicate Wanted(s: Sockets, h: Handle, connected: bool) {
    if connected then Connected(s, h) else Pending(s, h)
  }

  function One(s: Sockets, h: Handle, connected: bool): seq<Handle> {
    if Wanted(s, h, connected) then [h] else []
  }

  function Keep(q: seq<Handle>, s: Sockets, connected: bool): seq<Handle> {
    if q == [] then [] else One(s, q[0], connected) + Keep(q[1..], s, connected)
  }

  /** The listeners that are neither waiting nor connected. */
  function Dead(q: seq<Handle>, s: Sockets): set<Handle> {
    set h | h in q && !Connected(s, h) && !Pending(s, h)
  }

  /** What promotion means: connected listeners go to the end of the accept queue in their order,
      waiting ones stay, and the others go. */
  function Promoted(e: Entry, s: Sockets): Entry {
    Entry(Keep(e.listening, s, false), e.queued + Keep(e.listening, s, true), e.limit)
  }

  /** Promotion in terms of states: established listeners end up behind those queued before, listening
      ones and those in the handshake stay. */
  lemma {:induction false} PromotedMeans(e: Entry, s: Sockets, h: Handle)
    ensures e.queued <= Promoted(e, s).queued && Promoted(e, s).limit == e.limit
    ensures h in Promoted(e, s).queued <==> h in e.queued || (h in e.listening && h in s && s[h].state == Established)
    ensures h in Promoted(e, s).listening <==> h in e.listening && h in s && (s[h].state == Listen || s[h].state == SynReceived)
  {
    KeepMembers(e.listening, s, true, h);
    KeepMembers(e.listening, s, false, h);
  }

  lemma {:induction false} KeepMembers(q: seq<Handle>, s: Sockets, connected: bool, h: Handle)
    ensures h in Keep(q, s, connected) <==>
      h in q && h in s && if connected then s[h].state == Established else s[h].state == Listen || s[h].state == SynReceived
  {
    if q != [] {
      KeepMembers(q[1..], s, connected, h);
      assert h in q <==> h == q[0] || h in q[1..];
    }
  }

  /** The order of listeners is kept: those of a longer pool are those of its parts, one after the other. */
  lemma {:induction false} KeepConcat(a: seq<Handle>, b: seq<Handle>, s: Sockets, connected: bool)
    ensures Keep(a + b, s, connected) == Keep(a, s, connected) + Keep(b, s, connected)
  {
    hide One;
    if a == [] {
      assert a + b == b;
    } else {
      KeepConcat(a[1..], b, s, connected);
      assert (a + b)[1..] == a[1..] + b;
    }
  }

  // ---- Who owns which socket ----

  /** Each handle of `port` is in its entry once, and no other handle is. */
  ghost predicate Holds(e: Entry, owner: map<Handle, nat>, port: nat) {
    forall h: Handle :: multiset(e.listening + e.queued)[h] == if h in owner && owner[h] == port then 1 else 0
  }

  predicate Within(e: Entry) {
    1 <= e.limit <= LISTEN_QUEUE_SIZE && |e.listening| + |e.queued| <= e.limit
  }

  /** A port has as many sockets as its limit allows. */
  predicate Full(e: Entry) {
    |e.listening| + |e.queued| == e.limit
  }

  ghost predicate Owned(table: map<nat, Entry>, owner: map<Handle, nat>, sockets: Sockets) {
    && (forall p | p in table :: Within(table[p]) && Holds(table[p], owner, p))
    && (forall h | h in owner :: owner[h] in table && h in sockets)
  }

  /** The active ports are the occupied slots, each once. */
  ghost predicate Active(ports: seq<nat>, table: map<nat, Entry>) {
    NoRepeats(ports) && forall p :: p in ports <==> p in table
  }

  lemma ConcatCount(a: seq<Handle>, b: seq<Handle>, h: Handle)
    ensures multiset(a + b)[h] == multiset(a)[h] + multiset(b)[h]
  {
  }

  lemma {:induction false} KeepCounts(q: seq<Handle>, s: Sockets, connected: bool, h: Handle)
    ensures multiset(Keep(q, s, connected))[h] == if Wanted(s, h, connected) then multiset(q)[h] else 0
  {
    hide Wanted;
    if q != [] {
      var first, rest := One(s, q[0], connected), Keep(q[1..], s, connected);
      KeepCounts(q[1..], s, connected, h);
      assert q == [q[0]] + q[1..];
      ConcatCount([q[0]], q[1..], h);
      ConcatCount(first, rest, h);
    }
  }

  lemma {:induction false} KeepSizes(q: seq<Handle>, s: Sockets)
    ensures |Keep(q, s, true)| + |Keep(q, s, false)| <= |q|
  {
    if q != [] {
      KeepSizes(q[1..], s);
    }
  }

  lemma PromoteCounts(e: Entry, s: Sockets, h: Handle)
    ensures var e' := Promoted(e, s);
      multiset(e'.listening + e'.queued)[h] ==
      if h in Dead(e.listening, s) then multiset(e.queued)[h] else multiset(e.listening + e.queued)[h]
  {
    hide Connected, Pending;
    KeepCounts(e.listening, s, true, h);
    KeepCounts(e.listening, s, false, h);
    NotBoth(s, h);
    var e' := Promoted(e, s);
    assert multiset(e'.listening + e'.queued) == multiset(e'.listening) + (multiset(e.queued) + multiset(Keep(e.listening, s, true)));
    assert multiset(e.listening + e.queued) == multiset(e.listening) + multiset(e.queued);
    assert h in e.listening <==> multiset(e.listening)[h] > 0;
  }

  lemma NotBoth(s: Sockets, h: Handle)
    ensures !(Connected(s, h) && Pending(s, h))
  {
  }

  lemma PromoteHoldsAt(e: Entry, s: Sockets, owner: map<Handle, nat>, port: nat, h: Handle)
    requires Holds(e, owner, port)
    ensures h in Dead(e.listening, s) ==> h in owner && owner[h] == port
    ensures var e', owner' := Promoted(e, s), owner - Dead(e.listening, s);
      multiset(e'.listening + e'.queued)[h] == if h in owner' && owner'[h] == port then 1 else 0
  {
    hide Connected, Pending, Keep;
    PromoteCounts(e, s, h);
    assert multiset(e.listening + e.queued)[h] == multiset(e.listening)[h] + multiset(e.queued)[h];
    if h in Dead(e.listening, s) {
      assert multiset(e.listening)[h] > 0;
    }
  }

  lemma PromoteHolds(e: Entry, s: Sockets, owner: map<Handle, nat>, port: nat)
    requires Within(e) && Holds(e, owner, port)
    ensures Within(Promoted(e, s)) && Holds(Promoted(e, s), owner - Dead(e.listening, s), port)
    ensures forall h | h in Dead(e.listening, s) :: h in owner && owner[h] == port
  {
    hide Connected, Pending, Keep;
    KeepSizes(e.listening, s);
    var e', owner' := Promoted(e, s), owner - Dead(e.listening, s);
    forall h: Handle
      ensures multiset(e'.listening + e'.queued)[h] == if h in owner' && owner'[h] == port then 1 else 0
      ensures h in Dead(e.listening, s) ==> h in owner && owner[h] == port
    {
      PromoteHoldsAt(e, s, owner, port, h);
    }
  }

  lemma {:induction false} KeepSnoc(q: seq<Handle>, h: Handle, s: Sockets, connected: bool)
    ensures Keep(q + [h], s, connected) == Keep(q, s, connected) + One(s, h, connected)
  {
    hide One;
    if q == [] {
      assert [] + [h] == [h] && [h][1..] == [];
      assert Keep([h], s, connected) == One(s, h, connected) + [];
    } else {
      KeepSnoc(q[1..], h, s, connected);
      assert (q + [h])[1..] == q[1..] + [h];
      assert One(s, q[0], connected) + (Keep(q[1..], s, connected) + One(s, h, connected)) == Keep(q, s, connected) + One(s, h, connected);
    }
  }

  lemma DeadSnoc(q: seq<Handle>, h: Handle, s: Sockets)
    ensures Dead(q + [h], s) == Dead(q, s) + if Connected(s, h) || Pending(s, h) then {} else {h}
  {
  }

  lemma StillThere(s: Sockets, gone: set<Handle>, h: Handle)
    requires h !in gone
    ensures Connected(s - gone, h) == Connected(s, h) && Pending(s - gone, h) == Pending(s, h)
    ensures !(Connected(s, h) && Pending(s, h))
  {
  }

  lemma NothingSorted(e: Entry, s: Sockets)
    ensures Keep(e.listening[..0], s, true) == [] && Keep(e.listening[..0], s, false) == [] && Dead(e.listening[..0], s) == {}
    ensures e.queued + [] == e.queued
  {
  }

  lemma NotDeadYet(q: seq<Handle>, i: nat, s: Sockets)
    requires i < |q| && NoRepeats(q)
    ensures q[i] !in Dead(q[..i], s)
  {
  }

  /** How many queued connections `accept` has to throw away first. */
  function Skipped(q: seq<Handle>, s: Sockets): (n: nat)
    ensures n <= |q| && (n < |q| ==> Usable(s, q[n])) && forall i | 0 <= i < n :: !Usable(s, q[i])
  {
    if q == [] || Usable(s, q[0]) then 0 else 1 + Skipped(q[1..], s)
  }

  /** Queued connections are alive in the socket set, whatever promotion removes. */
  lemma QueueAlive(table: map<nat, Entry>, owner: map<Handle, nat>, sockets: Sockets, port: nat, h: Handle)
    requires Owned(table, owner, sockets) && port in table
    requires h in Promoted(table[port], sockets).queued
    ensures h in sockets && h !in Dead(table[port].listening, sockets)
  {
    var e := table[port];
    PromoteHolds(e, sockets, owner, port);
    var e' := Promoted(e, sockets);
    ConcatCount(e'.listening, e'.queued, h);
    assert multiset(e'.queued)[h] > 0;
  }

  lemma QueueInSockets(table: map<nat, Entry>, owner: map<Handle, nat>, sockets: Sockets, port: nat)
    requires Owned(table, owner, sockets) && port in table
    ensures forall h | h in table[port].queued :: h in owner && owner[h] == port && h in sockets
  {
  }

  lemma Twice(q: seq<Handle>, i: nat, j: nat)
    requires i < j < |q| && q[i] == q[j]
    ensures multiset(q)[q[i]] >= 2
  {
    assert q[..j][i] in multiset(q[..j]) && q[j..][0] in multiset(q[j..]);
    assert q == q[..j] + q[j..];
  }

  lemma ListenersDiffer(table: map<nat, Entry>, owner: map<Handle, nat>, sockets: Sockets, port: nat)
    requires Owned(table, owner, sockets) && port in table
    ensures NoRepeats(table[port].listening)
  {
    var q, e := table[port].listening, table[port];
    assert Holds(e, owner, port);
    forall i, j | 0 <= i < j < |q| ensures q[i] != q[j] {
      ConcatCount(q, e.queued, q[i]);
      if q[i] == q[j] {
        Twice(q, i, j);
      }
    }
  }

  lemma {:induction false} FreshHandle(s: set<Handle>) returns (h: Handle)
    ensures h !in s && forall x | x in s :: x < h
    decreases s
  {
    if s == {} {
      h := 0;
    } else {
      var x :| x in s;
      h := FreshHandle(s - {x});
      if h <= x {
        h := x + 1;
      }
      assert forall y | y in s :: y == x || y in s - {x};
    }
  }

  lemma PopHolds(e: Entry, owner: map<Handle, nat>, port: nat)
    requires Within(e) && Holds(e, owner, port) && e.queued != []
    ensures e.queued[0] in owner && owner[e.queued[0]] == port
    ensures Within(e.(queued := e.queued[1..])) && Holds(e.(queued := e.queued[1..]), owner - {e.queued[0]}, port)
  {
    var first := e.queued[0];
    assert e.queued == [first] + e.queued[1..];
    assert e.listening + e.queued == e.listening + [first] + e.queued[1..];
    assert multiset(e.listening + e.queued) == multiset(e.listening + e.queued[1..]) + multiset{first};
  }

  lemma AddHolds(e: Entry, owner: map<Handle, nat>, port: nat, h: Handle)
    requires Within(e) && |e.listening| + |e.queued| < e.limit && Holds(e, owner, port) && h !in owner
    ensures Within(e.(listening := e.listening + [h])) && Holds(e.(listening := e.listening + [h]), owner[h := port], port)
  {
  }

  /** Replaces a port's entry together with the ownership of its handles. */
  lemma ReplaceOwned(table: map<nat, Entry>, owner: map<Handle, nat>, sockets: Sockets, port: nat,
                     e: Entry, owner': map<Handle, nat>, sockets': Sockets)
    requires Owned(table, owner, sockets)
    requires Within(e) && Holds(e, owner', port)
    requires forall h | h in owner' :: h in sockets' && (owner'[h] == port || (h in owner && owner[h] == owner'[h]))
    requires forall h | h in owner && owner[h] != port :: h in owner' && owner'[h] == owner[h]
    ensures Owned(table[port := e], owner', sockets')
  {
    hide Holds, Within;
    forall p | p in table && p != port ensures Holds(table[p], owner', p) { StillHolds(table[p], owner, owner', port, p); }
  }

  lemma StillHolds(e: Entry, owner: map<Handle, nat>, owner': map<Handle, nat>, port: nat, p: nat)
    requires Holds(e, owner, p) && p != port
    requires forall h | h in owner' :: owner'[h] == port || (h in owner && owner[h] == owner'[h])
    requires forall h | h in owner && owner[h] != port :: h in owner' && owner'[h] == owner[h]
    ensures Holds(e, owner', p)
  {
  }

  function Handles(q: seq<Handle>): set<Handle> {
    set h | h in q
  }

  /** `t` is `s` without the sockets `gone` and with new listening sockets `added`, whose handles may be
      handles of sockets that went. */
  ghost predicate Turned(s: Sockets, gone: set<Handle>, added: seq<Handle>, t: Sockets) {
    && t.Keys == s.Keys - gone + Handles(added)
    && (forall h | h in added :: Pending(t, h) && (h in s ==> h in gone))
    && (forall h | h in s && h !in gone :: t[h] == s[h])
  }

  lemma NothingTurned(s: Sockets, gone: set<Handle>)
    ensures Turned(s, gone, [], s - gone) && s - {} == s
  {
  }

  lemma AddTurned(s: Sockets, gone: set<Handle>, added: seq<Handle>, t: Sockets, h: Handle)
    requires Turned(s, gone, added, t) && h !in t
    ensures Turned(s, gone, added + [h], t[h := Socket(Listen, false)])
  {
  }

  lemma TurnedTwice(s: Sockets, gone: set<Handle>, added: seq<Handle>, t: Sockets, gone': set<Handle>, added': seq<Handle>, u: Sockets)
    requires Turned(s, gone, added, t) && Turned(t, gone', added', u) && gone' !! Handles(added)
    ensures Turned(s, gone + gone', added + added', u)
  {
  }

  lemma {:induction false} KeepAgrees(q: seq<Handle>, s: Sockets, t: Sockets, connected: bool)
    requires forall h | h in q :: h in s && h in t && s[h] == t[h]
    ensures Keep(q, s, connected) == Keep(q, t, connected)
  {
    if q != [] {
      assert q[0] in q;
      KeepAgrees(q[1..], s, t, connected);
    }
  }

  /** A listener is dropped by promotion exactly if it is in a state other than the three that are
      kept. */
  lemma DroppedExactly(e: Entry, s: Sockets, h: Handle)
    requires h in e.listening && h in s
    ensures h in Dead(e.listening, s) <==> s[h].state !in {Listen, SynReceived, Established}
  {
  }

  /** So a connection whose peer has sent data and closed its side before anybody looked is lost. */
  lemma ClosedEarlyIsLost()
    ensures var s: Sockets := map[3 := Socket(CloseWait, true)];
      3 in Dead(Entry([3], [], 1).listening, s) && Promoted(Entry([3], [], 1), s) == Entry([], [], 1)
  {
  }

  class ListenTable {
    var table: map<nat, Entry>
    var activePorts: seq<nat>
    var sockets: Sockets
    ghost var owner: map<Handle, nat>
    /** A healthy network stack never refuses a listener. */
    const healthy: bool

    ghost predicate Valid()
      reads this
    {
      Owned(table, owner, sockets) && Active(activePorts, table)
    }

    constructor (sockets: Sockets, healthy: bool)
      ensures Valid() && table == map[] && owner == map[] && this.sockets == sockets && this.healthy == healthy
    {
      this.healthy := healthy;
      table, activePorts, owner := map[], [], map[];
      this.sockets := sockets;
    }

    /** The network changes a socket's state. */
    method Environment(h: Handle, socket: Socket)
      requires Valid()
      modifies this`sockets
      ensures Valid() && sockets == if h in old(sockets) then old(sockets)[h := socket] else old(sockets)
    {
      if h in sockets {
        sockets := sockets[h := socket];
      }
    }

    /** Makes a listening socket and puts it in the port's pool. */
    method AddListener(port: nat) returns (h: Handle)
      requires Valid() && port in table && |table[port].listening| + |table[port].queued| < table[port].limit
      modifies this`table, this`sockets, this`owner
      ensures Valid() && h !in old(sockets) && sockets == old(sockets)[h := Socket(Listen, false)] && owner == old(owner)[h := port]
      ensures table == old(table)[port := old(table)[port].(listening := old(table)[port].listening + [h])]
    {
      hide Holds;
      assert exists x: Handle :: x !in sockets by { var x := FreshHandle(sockets.Keys); }
      h :| h !in sockets;
      var e := table[port].(listening := table[port].listening + [h]);
      AddHolds(table[port], owner, port, h);
      ReplaceOwned(table, owner, sockets, port, e, owner[h := port], sockets[h := Socket(Listen, false)]);
      sockets := sockets[h := Socket(Listen, false)];
      owner := owner[h := port];
      table := table[port := e];
    }

    /** Adds listeners until the pool is full or the stack refuses one. */
    method Replenish(port: nat) returns (added: seq<Handle>, refused: bool)
      requires Valid() && port in table
      modifies this`table, this`sockets, this`owner
      ensures Valid() && table == old(table)[port := old(table)[port].(listening := old(table)[port].listening + added)]
      ensures !refused ==> |table[port].listening| + |table[port].queued| == table[port].limit
      ensures healthy ==> !refused
      ensures Turned(old(sockets), {}, added, sockets)
      ensures forall h | h in owner :: h in old(owner) || h in added
    {
      hide Holds, Active, Turned;
      NothingTurned(sockets, {});
      added, refused := [], false;
      ghost var e := table[port];
      assert e.listening + [] == e.listening;
      assert table == table[port := e];
      while |table[port].listening| + |table[port].queued| < table[port].limit
        invariant Valid() && table == old(table)[port := e.(listening := e.listening + added)]
        invariant !refused && Turned(old(sockets), {}, added, sockets)
        invariant forall h | h in owner :: h in old(owner) || h in added
        decreases table[port].limit - |table[port].listening| - |table[port].queued|
      {
        var fault: bool := *;
        if fault && !healthy {
          refused := true;
          return;
        }
        ghost var before := sockets;
        var h := AddListener(port);
        AddTurned(old(sockets), {}, added, before, h);
        assert e.listening + added + [h] == e.listening + (added + [h]);
        added := added + [h];
      }
    }
  
    /** Sorts listeners by what the network has made of them. The test for a full queue never turns
        a connection away. */
    method SortLoop(e: Entry) returns (pending: seq<Handle>, queued: seq<Handle>)
      requires Within(e) && NoRepeats(e.listening)
      modifies this`sockets
      ensures Entry(pending, queued, e.limit) == Promoted(e, old(sockets))
      ensures sockets == old(sockets) - Dead(e.listening, old(sockets))
    {
      hide Connected, Pending, Keep, Dead;
      queued, pending := e.queued, [];
      NothingSorted(e, sockets);
      for i := 0 to |e.listening|
        invariant queued == e.queued + Keep(e.listening[..i], old(sockets), true)
        invariant pending == Keep(e.listening[..i], old(sockets), false)
        invariant sockets == old(sockets) - Dead(e.listening[..i], old(sockets))
      {
        var h := e.listening[i];
        KeepSizes(e.listening[..i], old(sockets));
        KeepSnoc(e.listening[..i], h, old(sockets), true);
        KeepSnoc(e.listening[..i], h, old(sockets), false);
        DeadSnoc(e.listening[..i], h, old(sockets));
        assert e.listening[..i + 1] == e.listening[..i] + [h];
        NotDeadYet(e.listening, i, old(sockets));
        StillThere(old(sockets), Dead(e.listening[..i], old(sockets)), h);
        if |queued| < e.limit && Connected(sockets, h) {
          queued := queued + [h];
        } else if Pending(sockets, h) {
          pending := pending + [h];
        } else {
          sockets := sockets - {h};
        }
      }
      assert e.listening[..|e.listening|] == e.listening;
    }

    method SortListeners(port: nat)
      requires Valid() && port in table
      modifies this`table, this`sockets, this`owner
      ensures Valid() && table == old(table)[port := Promoted(old(table)[port], old(sockets))]
      ensures sockets == old(sockets) - Dead(old(table)[port].listening, old(sockets))
      ensures owner == old(owner) - Dead(old(table)[port].listening, old(sockets))
    {
      hide Holds, Connected, Pending, Keep, Within;
      var e := table[port];
      ListenersDiffer(table, owner, sockets, port);
      PromoteHolds(e, sockets, owner, port);
      var pending, queued := SortLoop(e);
      ghost var owner' := owner - Dead(e.listening, old(sockets));
      ReplaceOwned(table, owner, old(sockets), port, Promoted(e, old(sockets)), owner', sockets);
      owner := owner';
      table := table[port := Entry(pending, queued, e.limit)];
    }

    /** Promotes and refills a port. A port nobody listens on is left alone, and so are all others. */
    method PromoteListener(port: nat) returns (ghost added: seq<Handle>)
      requires Valid()
      modifies this`table, this`sockets, this`owner
      ensures Valid()
      ensures port !in old(table) ==> table == old(table) && sockets == old(sockets) && added == []
      ensures port in old(table) ==>
        var e := Promoted(old(table)[port], old(sockets));
        && table == old(table)[port := e.(listening := e.listening + added)]
        && Turned(old(sockets), Dead(old(table)[port].listening, old(sockets)), added, sockets)
        && (healthy ==> Full(table[port]))
    {
      hide Owned, Active, Keep, Connected, Pending, Turned, Dead;
      if port !in table {
        added := [];
        return;
      }
      ghost var gone := Dead(table[port].listening, sockets);
      NothingTurned(sockets, gone);
      ghost var mid;
      SortListeners(port);
      mid := sockets;
      var more, refused := Replenish(port);
      added := more;
      assert {} !! Handles([]) && gone + {} == gone && [] + added == added;
      TurnedTwice(old(sockets), gone, [], mid, {}, added, sockets);
    }

    /** Promotes every port there is, each as if it were alone. */
    method PromoteReadyListeners() returns (ghost added: seq<Handle>)
      requires Valid()
      modifies this`table, this`sockets, this`owner
      ensures Valid() && table.Keys == old(table).Keys
      ensures forall p | p in old(table) ::
        var e := Promoted(old(table)[p], old(sockets)); table[p].queued == e.queued && e.listening <= table[p].listening && table[p].limit == e.limit
      ensures (forall p | p in activePorts :: p in old(table)) &&
              Turned(old(sockets), DeadOn(activePorts, old(table), old(sockets)), added, sockets)
    {
      hide Holds, Keep, Connected, Pending, Within, Promoted, Dead, Turned, DeadOn, Handles, Owned, StillSame, PromotedFrom;
      added := [];
      assert DeadOn(activePorts[..0], table, sockets) == {} by { DeadOnNone(table, sockets); }
      NothingTurned(sockets, {});
      forall j | 0 <= j < |activePorts| ensures StillSame(table, sockets, table, sockets, activePorts[j]) {
        StartsSame(table, owner, sockets, activePorts[j]);
      }
      for i := 0 to |activePorts|
        invariant Valid() && table.Keys == old(table).Keys
        invariant forall j | 0 <= j < i :: PromotedFrom(old(table), old(sockets), table, activePorts[j])
        invariant Turned(old(sockets), DeadOn(activePorts[..i], old(table), old(sockets)), added, sockets)
        invariant forall j | i <= j < |activePorts| :: StillSame(old(table), old(sockets), table, sockets, activePorts[j])
      {
        ghost var port, t, s := activePorts[i], table, sockets;
        assert StillSame(old(table), old(sockets), t, s, port);
        ghost var gone := Dead(t[port].listening, s);
        DeadAreOwned(t, owner, s, port);
        ghost var o := owner;
        var more := PromoteListener(activePorts[i]);
        LostTurns(old(table), old(owner), old(sockets), activePorts, i, t, s, added, more, sockets);
        added := added + more;
        forall j | i < j < |activePorts| ensures StillSame(old(table), old(sockets), table, sockets, activePorts[j]) {
          assert StillSame(old(table), old(sockets), t, s, activePorts[j]);
          OtherStays(old(table), old(sockets), t, s, o, port, activePorts[j], gone, more, table, sockets);
        }
        StillPromotes(old(table), old(sockets), t, s, port);
        PromotedNow(old(table), old(sockets), t, s, table, port, more);
        forall j | 0 <= j < i ensures PromotedFrom(old(table), old(sockets), table, activePorts[j]) {
          PromotedStays(old(table), old(sockets), t, table, activePorts[j]);
        }
      }
      assert activePorts[..|activePorts|] == activePorts;
      forall p | p in old(table) ensures PromotedFrom(old(table), old(sockets), table, p) {
        var j :| 0 <= j < |activePorts| && activePorts[j] == p;
      }
      AllPromoted(old(table), old(sockets), table);
    }

    /** Takes the connection at the front of a port's queue out of the table. */
    method PopFront(port: nat, remove: bool) returns (h: Handle)
      requires Valid() && port in table && table[port].queued != []
      modifies this`table, this`sockets, this`owner
      ensures Valid() && h == old(table)[port].queued[0] && owner == old(owner) - {h}
      ensures table == old(table)[port := old(table)[port].(queued := old(table)[port].queued[1..])]
      ensures sockets == if remove then old(sockets) - {h} else old(sockets)
    {
      hide Holds, Within;
      var e := table[port];
      h := e.queued[0];
      PopHolds(e, owner, port);
      var left := if remove then sockets - {h} else sockets;
      ReplaceOwned(table, owner, sockets, port, e.(queued := e.queued[1..]), owner - {h}, left);
      table := table[port := e.(queued := e.queued[1..])];
      owner := owner - {h};
      sockets := left;
    }

    /** The loop of `accept`: drops dead connections until one is usable. */
    method TakeUsable(port: nat) returns (r: Result<Handle>, ghost added: seq<Handle>)
      requires Valid() && port in table
      modifies this`table, this`sockets, this`owner
      ensures Valid()
      ensures AcceptAnswer(old(table)[port], old(sockets), r, added, sockets) && (r.Ok? ==> r.value !in owner)
      ensures r.Ok? && healthy ==> Full(table[port])
      ensures table == old(table)[port := Accepted(old(table)[port], old(sockets), added)]
    {
      hide Owned, Active, Usable, Turned, Skipped, Handles, AcceptAnswer, Accepted;
      ghost var e, q, i, mid := table[port], table[port].queued, 0, sockets;
      assert q[0..] == q && q[..0] == [];
      DroppedSoFar(sockets, q, 0);
      while table[port].queued != []
        invariant Valid() && i <= |q| && table == old(table)[port := e.(queued := q[i..])]
        invariant i + Skipped(q[i..], old(sockets)) == Skipped(q, old(sockets))
        invariant sockets == old(sockets) - Handles(q[..i])
        decreases |table[port].queued|
      {
        var h := table[port].queued[0];
        assert q[i..][0] == q[i] && q[i..][1..] == q[i + 1..] && q[..i + 1] == q[..i] + [q[i]];
        QueueInSockets(table, owner, sockets, port);
        SameUse(sockets, old(sockets), h);
        var usable := Usable(sockets, h);
        SkipStep(q, old(sockets), i);
        DroppedSoFar(old(sockets), q, i + 1);
        var gone := PopFront(port, !usable);
        if usable {
          mid := sockets;
          var more, refused := Replenish(port);
          added := more;
          AcceptedUsable(e, old(sockets), i, added, sockets);
          TurnedKeeps(mid, {}, added, sockets, h);
          r := Ok(h);
          return;
        }
        i := i + 1;
      }
      assert q[..i] == q && q[i..] == [];
      NothingSkipped(old(sockets));
      AcceptedNone(e, old(sockets));
      r, added := Err(EAGAIN), [];
    }

    /** Returns the first usable connection in the order they were established, throws away exactly
        the dead ones before it, and refuses only if there is none. Besides the sockets promotion and
        this throw away, and new listeners, no socket and no port changes. */
    method Accept(port: nat) returns (r: Result<Handle>, ghost added: seq<Handle>)
      requires Valid()
      modifies this`table, this`sockets, this`owner
      ensures Valid() && (r.Ok? ==> r.value !in owner)
      ensures port !in old(table) ==> r == Err(ECONNREFUSED) && table == old(table) && sockets == old(sockets)
      ensures port in old(table) ==>
        var e := Promoted(old(table)[port], old(sockets));
        var q, n := e.queued, Skipped(e.queued, old(sockets));
        && r == (if n < |q| then Ok(q[n]) else Err(EAGAIN))
        && table == old(table)[port := Entry(e.listening + added, if n < |q| then q[n + 1..] else [], e.limit)]
        && Turned(old(sockets), Dead(old(table)[port].listening, old(sockets)) + Handles(q[..n]), added, sockets)
      ensures r.Ok? && healthy ==> port in table && Full(table[port])
      ensures port in old(table) ==> FirstLive(Promoted(old(table)[port], old(sockets)).queued, old(sockets), r)
      ensures port in old(table) ==> LiveStay(Promoted(old(table)[port], old(sockets)).queued, old(sockets), sockets)
    {
      hide Owned, Active, Dead, Usable, Turned, Keep, Handles, Promoted, Skipped, AcceptAnswer, FirstLive, LiveStay;
      if port !in table {
        added := [];
        return Err(ECONNREFUSED), added;
      }
      ghost var e, dead := Promoted(table[port], sockets), Dead(table[port].listening, sockets);
      ghost var q := e.queued;
      forall h | h in q ensures h in sockets && h !in dead { QueueAlive(table, owner, sockets, port, h); }
      ghost var first := PromoteListener(port);
      ghost var mid := sockets;
      forall h | h in q ensures h in mid && mid[h] == old(sockets)[h] && h !in first { TurnedKeeps(old(sockets), dead, first, mid, h); }
      SkippedAgrees(q, mid, old(sockets));
      ghost var second;
      r, second := TakeUsable(port);
      added := first + second;
      AcceptJoins(e, old(sockets), dead, first, mid, r, second, sockets);
      FirstUsable(q, old(sockets), r);
      LiveKept(q, old(sockets), dead, added, sockets);
      assert e.listening + first + second == e.listening + added;
    }

    method CanAccept(port: nat) returns (ready: bool, ghost added: seq<Handle>)
      requires Valid()
      modifies this`table, this`sockets, this`owner
      ensures Valid()
      ensures ready <==> port in old(table) && Promoted(old(table)[port], old(sockets)).queued != []
      ensures port !in old(table) ==> table == old(table) && sockets == old(sockets)
      ensures port in old(table) ==>
        var e := Promoted(old(table)[port], old(sockets));
        && table == old(table)[port := e.(listening := e.listening + added)]
        && Turned(old(sockets), Dead(old(table)[port].listening, old(sockets)), added, sockets)
        && (healthy ==> Full(table[port]))
    {
      added := PromoteListener(port);
      ready := port in table && table[port].queued != [];
    }

    /** Starts listening with a socket nobody else has in the table. */
    method StartListening(port: nat, h: Handle, backlog: nat) returns (r: Result<()>, ghost added: seq<Handle>)
      requires Valid() && h in sockets && h !in owner
      modifies this
      ensures Valid()
      ensures r == (if port in old(table) then Err(EADDRINUSE) else Ok(()))
      ensures r.Err? ==> table == old(table) && sockets == old(sockets) && activePorts == old(activePorts)
      ensures r.Ok? ==> table == old(table)[port := Entry([h] + added, [], Clamp(backlog))] && activePorts == old(activePorts) + [port]
      ensures r.Ok? ==> Turned(old(sockets), {}, added, sockets)
      ensures r.Ok? && healthy ==> Full(table[port])
      ensures r.Ok? ==> table[port].limit == if backlog == 0 then 1 else if backlog <= 128 then backlog else 128
    {
      hide Owned, Active, Turned, Handles;
      if port in table {
        return Err(EADDRINUSE), [];
      }
      var e := Entry([h], [], Clamp(backlog));
      FirstOwned(table, owner, sockets, activePorts, port, h, Clamp(backlog));
      owner := owner[h := port];
      table := table[port := e];
      activePorts := activePorts + [port];
      var more, refused := Replenish(port);
      added := more;
      r := Ok(());
    }

    /** Stops listening: the slot, the port and every socket of the port are gone, and no other. */
    method Unlisten(port: nat)
      requires Valid()
      modifies this
      ensures Valid() && table == old(table) - {port}
      ensures sockets == old(sockets) - OwnedBy(old(owner), port) && owner == OwnedByOthers(old(owner), port)
    {
      hide Active, Holds, Owned, OwnedBy, OwnedByOthers;
      if port in table {
        HandlesAreOwned(table, owner, sockets, port);
        RemoveAll(table[port].listening);
        RemoveAll(table[port].queued);
      } else {
        NothingOwned(table, owner, sockets, port);
      }
      assert sockets == old(sockets) - OwnedBy(owner, port);
      LeftOwned(table, owner, old(sockets), port);
      table := table - {port};
      owner := OwnedByOthers(owner, port);
      DropPort(activePorts, old(table), port);
      activePorts := Retained(activePorts, port);
    }

    method RemoveAll(q: seq<Handle>)
      modifies this`sockets
      ensures sockets == old(sockets) - (set h | h in q)
    {
      for i := 0 to |q|
        invariant sockets == old(sockets) - (set h | h in q[..i])
      {
        sockets := sockets - {q[i]};
        assert q[..i + 1] == q[..i] + [q[i]];
      }
      assert q[..|q|] == q;
    }
  }

  /** What the loop of `accept` answers on entry `e`. */
  ghost predicate AcceptAnswer(e: Entry, s: Sockets, r: Result<Handle>, added: seq<Handle>, t: Sockets) {
    var q, n := e.queued, Skipped(e.queued, s);
    && r == (if n < |q| then Ok(q[n]) else Err(EAGAIN))
    && Turned(s, Handles(q[..n]), added, t)
  }

  ghost function Accepted(e: Entry, s: Sockets, added: seq<Handle>): Entry {
    var q, n := e.queued, Skipped(e.queued, s);
    Entry(e.listening + added, if n < |q| then q[n + 1..] else [], e.limit)
  }

  lemma AcceptedUsable(e: Entry, s: Sockets, n: nat, added: seq<Handle>, t: Sockets)
    requires n < |e.queued| && Skipped(e.queued, s) == n && Turned(s - Handles(e.queued[..n]), {}, added, t)
    ensures AcceptAnswer(e, s, Ok(e.queued[n]), added, t)
    ensures Accepted(e, s, added) == Entry(e.listening + added, e.queued[n + 1..], e.limit)
  {
  }

  lemma AcceptedNone(e: Entry, s: Sockets)
    requires Skipped(e.queued, s) == |e.queued|
    ensures AcceptAnswer(e, s, Err(EAGAIN), [], s - Handles(e.queued))
    ensures Accepted(e, s, []) == e.(queued := [])
  {
  }

  /** The answer is the first queued connection that is not closed and has both endpoints, or none if
      there is none. */
  ghost predicate FirstLive(q: seq<Handle>, s: Sockets, r: Result<Handle>) {
    match r
    case Err(e) => e == EAGAIN && forall i | 0 <= i < |q| :: !(q[i] in s && s[q[i]].state != Closed && s[q[i]].hasEndpoints)
    case Ok(h) => exists n | 0 <= n < |q| ::
      && q[n] == h && h in s && s[h].state != Closed && s[h].hasEndpoints
      && forall i | 0 <= i < n :: !(q[i] in s && s[q[i]].state != Closed && s[q[i]].hasEndpoints)
  }

  /** Queued connections that are not closed and have both endpoints keep their sockets. */
  ghost predicate LiveStay(q: seq<Handle>, s: Sockets, t: Sockets) {
    forall h | h in q && h in s && s[h].state != Closed && s[h].hasEndpoints :: h in t && t[h] == s[h]
  }

  lemma FirstUsable(q: seq<Handle>, s: Sockets, r: Result<Handle>)
    requires var n := Skipped(q, s); r == if n < |q| then Ok(q[n]) else Err(EAGAIN)
    ensures FirstLive(q, s, r)
  {
  }

  lemma LiveKept(q: seq<Handle>, s: Sockets, dead: set<Handle>, added: seq<Handle>, t: Sockets)
    requires Turned(s, dead + Handles(q[..Skipped(q, s)]), added, t) && forall h | h in q :: h !in dead
    ensures LiveStay(q, s, t)
  {
    forall h | h in q && h in s && s[h].state != Closed && s[h].hasEndpoints ensures h in t && t[h] == s[h] {
      assert h !in q[..Skipped(q, s)];
    }
  }

  /** Promotion followed by the loop: what goes is what either takes away. */
  lemma AcceptJoins(e: Entry, s: Sockets, dead: set<Handle>, first: seq<Handle>, mid: Sockets, r: Result<Handle>, second: seq<Handle>, t: Sockets)
    requires Turned(s, dead, first, mid) && AcceptAnswer(e.(listening := e.listening + first), mid, r, second, t)
    requires Skipped(e.queued, mid) == Skipped(e.queued, s) && forall h | h in e.queued :: h !in first
    ensures var q, n := e.queued, Skipped(e.queued, s);
      r == (if n < |q| then Ok(q[n]) else Err(EAGAIN)) && Turned(s, dead + Handles(q[..n]), first + second, t)
  {
    hide Turned, Skipped;
    var n := Skipped(e.queued, s);
    assert Handles(e.queued[..n]) !! Handles(first);
    TurnedTwice(s, dead, first, mid, Handles(e.queued[..n]), second, t);
  }

  lemma NothingSkipped(s: Sockets)
    ensures Skipped([], s) == 0
  {
  }

  lemma SkipStep(q: seq<Handle>, s: Sockets, i: nat)
    requires i < |q|
    ensures Skipped(q[i..], s) == if Usable(s, q[i]) then 0 else 1 + Skipped(q[i + 1..], s)
  {
  }

  lemma DroppedSoFar(s: Sockets, q: seq<Handle>, i: nat)
    requires i <= |q|
    ensures s - Handles(q[..i]) == if i == 0 then s else s - Handles(q[..i - 1]) - {q[i - 1]}
  {
  }

  lemma TurnedKeeps(s: Sockets, gone: set<Handle>, added: seq<Handle>, t: Sockets, h: Handle)
    requires Turned(s, gone, added, t) && h in s && h !in gone
    ensures h in t && t[h] == s[h] && h !in added
  {
  }

  ghost predicate PromotedFrom(t0: map<nat, Entry>, s0: Sockets, t: map<nat, Entry>, p: nat) {
    p in t0 && p in t &&
    var e := Promoted(t0[p], s0); t[p].queued == e.queued && e.listening <= t[p].listening && t[p].limit == e.limit
  }

  lemma PromotedNow(t0: map<nat, Entry>, s0: Sockets, t: map<nat, Entry>, s: Sockets, u: map<nat, Entry>, port: nat, more: seq<Handle>)
    requires port in t0 && port in t && port in u && Promoted(t0[port], s0) == Promoted(t[port], s)
    requires var e := Promoted(t[port], s); u[port] == e.(listening := e.listening + more)
    ensures PromotedFrom(t0, s0, u, port)
  {
  }

  lemma PromotedStays(t0: map<nat, Entry>, s0: Sockets, t: map<nat, Entry>, u: map<nat, Entry>, p: nat)
    requires PromotedFrom(t0, s0, t, p) && p in t && p in u && u[p] == t[p]
    ensures PromotedFrom(t0, s0, u, p)
  {
  }

  lemma AllPromoted(t0: map<nat, Entry>, s0: Sockets, t: map<nat, Entry>)
    requires t.Keys == t0.Keys && forall p | p in t0 :: PromotedFrom(t0, s0, t, p)
    ensures forall p | p in t0 :: var e := Promoted(t0[p], s0); t[p].queued == e.queued && e.listening <= t[p].listening && t[p].limit == e.limit
  {
    hide Promoted;
  }

  /** Port `p` and its sockets are as they were. */
  ghost predicate StillSame(t0: map<nat, Entry>, s0: Sockets, t: map<nat, Entry>, s: Sockets, p: nat) {
    && p in t0 && p in t && t[p] == t0[p]
    && forall h | h in t0[p].listening :: h in s0 && h in s && s[h] == s0[h]
  }

  /** The dead listeners of some ports. */
  function DeadOn(ports: seq<nat>, table: map<nat, Entry>, s: Sockets): set<Handle>
    requires forall p | p in ports :: p in table
  {
    if ports == [] then {}
    else DeadOn(ports[..|ports| - 1], table, s) + Dead(table[ports[|ports| - 1]].listening, s)
  }

  lemma DeadOnNone(table: map<nat, Entry>, s: Sockets)
    ensures DeadOn([], table, s) == {}
  {
  }

  lemma {:induction false} DeadOnOwned(table: map<nat, Entry>, owner: map<Handle, nat>, sockets: Sockets, ports: seq<nat>)
    requires Owned(table, owner, sockets) && forall p | p in ports :: p in table
    ensures forall h | h in DeadOn(ports, table, sockets) :: h in owner && owner[h] in ports
  {
    hide Owned, Dead;
    if ports != [] {
      var n := |ports| - 1;
      DeadOnOwned(table, owner, sockets, ports[..n]);
      DeadAreOwned(table, owner, sockets, ports[n]);
    }
  }

  /** Promoting one more port takes its dead listeners and nothing that promotion has added. */
  lemma LostTurns(table: map<nat, Entry>, owner: map<Handle, nat>, s0: Sockets, ports: seq<nat>, i: nat,
                  t: map<nat, Entry>, s: Sockets, added: seq<Handle>, more: seq<Handle>, u: Sockets)
    requires Owned(table, owner, s0) && i < |ports| && NoRepeats(ports) && forall p | p in ports :: p in table
    requires StillSame(table, s0, t, s, ports[i])
    requires Turned(s0, DeadOn(ports[..i], table, s0), added, s) && Turned(s, Dead(t[ports[i]].listening, s), more, u)
    ensures Turned(s0, DeadOn(ports[..i + 1], table, s0), added + more, u)
  {
    hide Owned, DeadOn;
    var lost, gone := DeadOn(ports[..i], table, s0), Dead(table[ports[i]].listening, s0);
    assert Dead(t[ports[i]].listening, s) == gone;
    DeadOnOwned(table, owner, s0, ports[..i]);
    DeadAreOwned(table, owner, s0, ports[i]);
    assert gone !! Handles(added) by {
      forall h | h in gone ensures h !in added { assert h in s0 && h !in lost; }
    }
    TurnedTwice(s0, lost, added, s, gone, more, u);
    assert DeadOn(ports[..i + 1], table, s0) == lost + gone by { DeadOnNext(ports, i, table, s0); }
  }

  lemma DeadOnNext(ports: seq<nat>, i: nat, table: map<nat, Entry>, s: Sockets)
    requires i < |ports| && forall p | p in ports :: p in table
    ensures DeadOn(ports[..i + 1], table, s) == DeadOn(ports[..i], table, s) + Dead(table[ports[i]].listening, s)
  {
    assert ports[..i + 1][..i] == ports[..i];
  }

  lemma StartsSame(table: map<nat, Entry>, owner: map<Handle, nat>, sockets: Sockets, port: nat)
    requires Owned(table, owner, sockets) && port in table
    ensures StillSame(table, sockets, table, sockets, port)
  {
    ListenersInSockets(table, owner, sockets, port);
  }

  lemma StillPromotes(t0: map<nat, Entry>, s0: Sockets, t: map<nat, Entry>, s: Sockets, port: nat)
    requires StillSame(t0, s0, t, s, port)
    ensures port in t0 && port in t && t[port] == t0[port] && Promoted(t0[port], s0) == Promoted(t[port], s)
  {
    SamePromoted(t0[port], s0, s);
  }

  lemma SamePromoted(e: Entry, s: Sockets, t: Sockets)
    requires forall h | h in e.listening :: h in s && h in t && t[h] == s[h]
    ensures Promoted(e, s) == Promoted(e, t)
  {
    KeepAgrees(e.listening, s, t, true);
    KeepAgrees(e.listening, s, t, false);
  }

  lemma ListenersInSockets(table: map<nat, Entry>, owner: map<Handle, nat>, sockets: Sockets, port: nat)
    requires Owned(table, owner, sockets) && port in table
    ensures forall h | h in table[port].listening :: h in owner && owner[h] == port && h in sockets
  {
  }

  lemma DeadAreOwned(table: map<nat, Entry>, owner: map<Handle, nat>, sockets: Sockets, port: nat)
    requires Owned(table, owner, sockets) && port in table
    ensures forall h | h in Dead(table[port].listening, sockets) :: h in owner && owner[h] == port
  {
  }

  lemma OtherStays(t0: map<nat, Entry>, s0: Sockets, t: map<nat, Entry>, s: Sockets, owner: map<Handle, nat>,
                   port: nat, other: nat, gone: set<Handle>, more: seq<Handle>, u: map<nat, Entry>, v: Sockets)
    requires Owned(t, owner, s) && other != port && StillSame(t0, s0, t, s, other) && other in u && u[other] == t[other]
    requires (forall h | h in gone :: h in owner && owner[h] == port) && Turned(s, gone, more, v)
    ensures StillSame(t0, s0, u, v, other)
  {
    ListenersInSockets(t, owner, s, other);
  }

  lemma SameUse(s: Sockets, s0: Sockets, h: Handle)
    requires h in s && h in s0 && s[h] == s0[h]
    ensures Usable(s, h) == Usable(s0, h)
  {
  }

  lemma {:induction false} SkippedAgrees(q: seq<Handle>, s: Sockets, s0: Sockets)
    requires forall h | h in q :: h in s && h in s0 && s[h] == s0[h]
    ensures Skipped(q, s) == Skipped(q, s0)
  {
  }

  function Retained(q: seq<nat>, port: nat): seq<nat> {
    if q == [] then [] else (if q[0] != port then [q[0]] else []) + Retained(q[1..], port)
  }

  lemma {:induction false} RetainedMeans(q: seq<nat>, port: nat)
    requires NoRepeats(q)
    ensures NoRepeats(Retained(q, port)) && forall p :: p in Retained(q, port) <==> p in q && p != port
  {
    if q != [] {
      var rest := Retained(q[1..], port);
      RetainedMeans(q[1..], port);
      assert q == [q[0]] + q[1..];
      assert q[0] !in q[1..] && q[0] !in rest;
    }
  }

  lemma DropPort(ports: seq<nat>, table: map<nat, Entry>, port: nat)
    requires Active(ports, table)
    ensures Active(Retained(ports, port), table - {port})
  {
    RetainedMeans(ports, port);
  }

  ghost function OwnedBy(owner: map<Handle, nat>, port: nat): set<Handle> {
    set h | h in owner && owner[h] == port
  }

  ghost function OwnedByOthers(owner: map<Handle, nat>, port: nat): map<Handle, nat> {
    map h | h in owner && owner[h] != port :: owner[h]
  }

  /** The handles of a port are those in its entry. */
  lemma HandlesAreOwned(table: map<nat, Entry>, owner: map<Handle, nat>, sockets: Sockets, port: nat)
    requires Owned(table, owner, sockets) && port in table
    ensures (set h | h in table[port].listening) + (set h | h in table[port].queued) == OwnedBy(owner, port)
  {
  }

  lemma NothingOwned(table: map<nat, Entry>, owner: map<Handle, nat>, sockets: Sockets, port: nat)
    requires Owned(table, owner, sockets) && port !in table
    ensures OwnedBy(owner, port) == {}
  {
  }

  lemma LeftHolds(e: Entry, owner: map<Handle, nat>, port: nat, other: nat)
    requires Holds(e, owner, other) && other != port
    ensures Holds(e, OwnedByOthers(owner, port), other)
  {
  }

  lemma LeftOwned(table: map<nat, Entry>, owner: map<Handle, nat>, sockets: Sockets, port: nat)
    requires Owned(table, owner, sockets)
    ensures Owned(table - {port}, OwnedByOthers(owner, port), sockets - OwnedBy(owner, port))
  {
    hide Holds, Within;
    forall p | p in table - {port} ensures Holds(table[p], OwnedByOthers(owner, port), p) {
      LeftHolds(table[p], owner, port, p);
    }
  }

  lemma FirstHolds(h: Handle, owner: map<Handle, nat>, port: nat, limit: nat, table: map<nat, Entry>, sockets: Sockets)
    requires h !in owner && port !in table && Owned(table, owner, sockets)
    ensures Holds(Entry([h], [], limit), owner[h := port], port)
  {
  }

  lemma FirstOwned(table: map<nat, Entry>, owner: map<Handle, nat>, sockets: Sockets, ports: seq<nat>, port: nat, h: Handle, limit: nat)
    requires Owned(table, owner, sockets) && Active(ports, table) && h in sockets && h !in owner && port !in table && 1 <= limit <= LISTEN_QUEUE_SIZE
    ensures Owned(table[port := Entry([h], [], limit)], owner[h := port], sockets)
    ensures Active(ports + [port], table[port := Entry([h], [], limit)])
  {
    hide Holds;
    var e := Entry([h], [], limit);
    FirstHolds(h, owner, port, limit, table, sockets);
    ReplaceOwned(table, owner, sockets, port, e, owner[h := port], sockets);
  }

  lemma OneListener(s: Sockets)
    requires 3 in s && s[3].state == Established
    ensures Promoted(Entry([3], [], 1), s).queued == [3]
  {
    assert Keep([3], s, true) == One(s, 3, true) + Keep([3][1..], s, true);
  }

  /** A listener that the network has established is the connection that `accept` returns. */
  method EstablishedIsAccepted() returns (r: Result<Handle>)
    ensures r == Ok(3)
  {
    hide Holds, Turned, Active;
    var t := new ListenTable(map[3 := Socket(Listen, false)], true);
    var started, extra := t.StartListening(80, 3, 1);
    assert Within(t.table[80]);
    assert 3 in t.sockets by { ListenersInSockets(t.table, t.owner, t.sockets, 80); assert t.table[80].listening[0] == 3; }
    t.Environment(3, Socket(Established, true));
    OneListener(t.sockets);
    assert t.table[80] == Entry([3], [], 1);
    ghost var s := t.sockets;
    var answer, more := t.Accept(80);
    assert [3][0] in s;
    r := answer;
  }
}
