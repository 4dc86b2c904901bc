/** Round-robin turns and subscription lists. */
module NngTurns {
  import opened NngSpec
  import opened NngLaws

  // --------------------------------------------------------------- counting turns

  /** The entry whose turn it is at the j-th of consecutive sends, starting from cursor c. */
  function TurnAt(c: nat, n: nat, j: nat): nat {
    if j == 0 then Turn(c, n) else NextTurn(TurnAt(c, n, j - 1), n)
  }

  /** How often entry e has its turn among the first k sends. */
  function TurnsOf(c: nat, n: nat, e: nat, k: nat): nat {
    if k == 0 then 0 else TurnsOf(c, n, e, k - 1) + (if TurnAt(c, n, k - 1) == e then 1 else 0)
  }

  /** How many turns entry e has to wait when it is c's turn. */
  function Wait(c: nat, n: nat, e: nat): nat
    requires c < n && e < n
  {
    if e >= c then e - c else e + n - c
  }

  /** After q full rounds and r more turns each entry has had q turns, or q + 1 if it was among
      the r. */
  lemma {:induction false} TurnsBalance(c: nat, n: nat, e: nat, q: nat, r: nat, k: nat)
    requires c < n && e < n && r < n && k == q * n + r
    ensures TurnAt(c, n, k) == if c + r < n then c + r else c + r - n
    ensures TurnsOf(c, n, e, k) == q + if Wait(c, n, e) < r then 1 else 0
    decreases k
  {
    if r > 0 {
      TurnsBalance(c, n, e, q, r - 1, k - 1);
    } else if q > 0 {
      assert (q - 1) * n + n == q * n;
      TurnsBalance(c, n, e, q - 1, n - 1, k - 1);
    } else {
      assert k == 0;
    }
  }

  /** k sends to n peers are some full rounds and a rest. */
  lemma {:induction false} Rounds(n: nat, k: nat) returns (q: nat, r: nat)
    requires n > 0
    ensures k == q * n + r && r < n
  {
    if k == 0 {
      q, r := 0, 0;
    } else {
      q, r := Rounds(n, k - 1);
      if r + 1 < n {
        r := r + 1;
      } else {
        assert (q + 1) * n == q * n + n;
        q, r := q + 1, 0;
      }
    }
  }

  /** Over any number k of consecutive sends to n peers each entry is targeted k / n times,
      rounded down or up (q is the quotient and r the remainder), so that no two entries ever
      differ by more than one. */
  lemma TurnsAreFair(c: nat, n: nat, e: nat, e': nat, k: nat) returns (q: nat, r: nat)
    requires c < n && e < n && e' < n
    ensures k == q * n + r && r < n
    ensures q <= TurnsOf(c, n, e, k) <= q + (if r == 0 then 0 else 1)
    ensures TurnsOf(c, n, e, k) <= TurnsOf(c, n, e', k) + 1
  {
    q, r := Rounds(n, k);
    TurnsBalance(c, n, e, q, r, k);
    TurnsBalance(c, n, e', q, r, k);
  }

  // -------------------------------------------------------------- sends on a PUSH socket

  lemma {:induction false} PeersDependOnWiring(n: Net, m: Net, id: nat, proto: int, k: nat)
    requires n.socks == m.socks && n.pipes == m.pipes && k <= |n.pipes|
    ensures PeersUpTo(m, id, proto, k) == PeersUpTo(n, id, proto, k)
  {
    if k > 0 { PeersDependOnWiring(n, m, id, proto, k - 1); }
  }

  /** One push: the entry whose turn it is gets the body if there is room, nobody else gets
      anything, and the turn passes on in either case. */
  lemma PushStep(n: Net, id: nat, p: nat, now: nat)
    requires Shape(n) && Speaks(n, id, PUSH) && p in n.held && Peers(n, id, PULL) != []
    ensures var m, peers := Apply(n, Send(id, p, now)).0, Peers(n, id, PULL);
            var i := Turn(n.states[id].cursor, |peers|);
            && i < |peers| && peers[i] < MAX_SOCKETS
            && m.socks == n.socks && m.pipes == n.pipes
            && m.states[id].cursor == NextTurn(i, |peers|)
            && m.queues[peers[i]] == n.queues[peers[i]] + (if HasRoom(n, peers[i], n.held[p].body) then [n.held[p].body] else [])
            && forall q :: 0 <= q < MAX_SOCKETS && q != peers[i] ==> m.queues[q] == n.queues[q]
  {
    PeersValid(n, id, PULL);
  }

  /** Call i is a send of some held message on socket id. */
  ghost predicate IsPush(nets: seq<Net>, calls: seq<Call>, id: nat, i: nat)
    requires i < |calls| < |nets|
  {
    calls[i].Send? && calls[i].id == id && calls[i].handle in nets[i].held
  }

  /** The j-th of consecutive pushes goes to the entry whose turn it is by the count from the
      first cursor, whatever became of the pushes before it. */
  lemma {:induction false} PushTurns(nets: seq<Net>, calls: seq<Call>, id: nat, j: nat)
    requires IsRun(nets, calls) && j <= |calls|
    requires Speaks(nets[0], id, PUSH) && Peers(nets[0], id, PULL) != []
    requires forall i :: 0 <= i < |calls| ==> IsPush(nets, calls, id, i)
    ensures var peers := Peers(nets[0], id, PULL);
            && Speaks(nets[j], id, PUSH) && Peers(nets[j], id, PULL) == peers
            && Turn(nets[j].states[id].cursor, |peers|) == TurnAt(nets[0].states[id].cursor, |peers|, j)
  {
    if j > 0 {
      PushTurns(nets, calls, id, j - 1);
      PushRunStep(nets, calls, id, j - 1);
    }
  }

  lemma PushRunStep(nets: seq<Net>, calls: seq<Call>, id: nat, i: nat)
    requires IsRun(nets, calls) && i < |calls| && IsPush(nets, calls, id, i)
    requires Speaks(nets[i], id, PUSH) && Peers(nets[i], id, PULL) != []
    ensures var n, m, peers := nets[i], nets[i + 1], Peers(nets[i], id, PULL);
            var e := Turn(n.states[id].cursor, |peers|);
            && Speaks(m, id, PUSH) && Peers(m, id, PULL) == peers
            && Turn(m.states[id].cursor, |peers|) == NextTurn(e, |peers|)
            && e < |peers| && peers[e] < MAX_SOCKETS
            && m.queues[peers[e]] == n.queues[peers[e]]
                 + (if HasRoom(n, peers[e], n.held[calls[i].handle].body) then [n.held[calls[i].handle].body] else [])
            && forall q :: 0 <= q < MAX_SOCKETS && q != peers[e] ==> m.queues[q] == n.queues[q]
  {
    assert StepAt(nets, calls, i);
    PushStep(nets[i], id, calls[i].handle, calls[i].now);
    PeersDependOnWiring(nets[i], nets[i + 1], id, PULL, MAX_PIPES);
  }

  /** How many of the first k calls push to entry e of the peer list. */
  function PushesTo(nets: seq<Net>, id: nat, peers: nat, e: nat, k: nat): nat
    requires k <= |nets| && forall i :: 0 <= i < k ==> id < |nets[i].states|
  {
    if k == 0 then 0 else
      PushesTo(nets, id, peers, e, k - 1) + (if Turn(nets[k - 1].states[id].cursor, peers) == e then 1 else 0)
  }

  lemma {:induction false} PushesAreTurns(nets: seq<Net>, calls: seq<Call>, id: nat, e: nat, k: nat)
    requires IsRun(nets, calls) && k <= |calls| && id < MAX_SOCKETS
    requires Speaks(nets[0], id, PUSH) && Peers(nets[0], id, PULL) != []
    requires forall i :: 0 <= i < |calls| ==> IsPush(nets, calls, id, i)
    ensures var n := |Peers(nets[0], id, PULL)|;
            PushesTo(nets, id, n, e, k) == TurnsOf(nets[0].states[id].cursor, n, e, k)
  {
    if k > 0 {
      PushesAreTurns(nets, calls, id, e, k - 1);
      PushTurns(nets, calls, id, k - 1);
    }
  }

  /** Over a run of k pushes with n peers, whatever becomes of each, every entry is the target
      of k / n of them, rounded down or up, and no two entries differ by more than one. */
  lemma PushesAreFair(nets: seq<Net>, calls: seq<Call>, id: nat, e: nat, e': nat) returns (q: nat, r: nat)
    requires IsRun(nets, calls) && id < MAX_SOCKETS
    requires Speaks(nets[0], id, PUSH) && Peers(nets[0], id, PULL) != []
    requires forall i :: 0 <= i < |calls| ==> IsPush(nets, calls, id, i)
    requires e < |Peers(nets[0], id, PULL)| && e' < |Peers(nets[0], id, PULL)|
    ensures var k, n := |calls|, |Peers(nets[0], id, PULL)|;
            && k == q * n + r && r < n
            && q <= PushesTo(nets, id, n, e, k) <= q + (if r == 0 then 0 else 1)
            && PushesTo(nets, id, n, e, k) <= PushesTo(nets, id, n, e', k) + 1
  {
    var n, c := |Peers(nets[0], id, PULL)|, nets[0].states[id].cursor;
    PushesAreTurns(nets, calls, id, e, |calls|);
    PushesAreTurns(nets, calls, id, e', |calls|);
    TurnsFromCursor(c, n, e, |calls|);
    TurnsFromCursor(c, n, e', |calls|);
    q, r := TurnsAreFair(Turn(c, n), n, e, e', |calls|);
  }

  /** A cursor past the end counts as the first entry. */
  lemma {:induction false} TurnsFromCursor(c: nat, n: nat, e: nat, k: nat)
    ensures TurnAt(Turn(c, n), n, k) == TurnAt(c, n, k)
    ensures TurnsOf(Turn(c, n), n, e, k) == TurnsOf(c, n, e, k)
  {
    if k > 0 { TurnsFromCursor(c, n, e, k - 1); }
  }

  // --------------------------------------------------------------- subscription lists

  /** Unsubscribing removes exactly one entry equal to the topic, wherever it stands. */
  lemma UnsubscribeRemovesOne(n: Net, id: nat, topic: Body)
    requires Shape(n) && Speaks(n, id, SUB)
    ensures var (m, rv) := Apply(n, Unsubscribe(id, topic));
            && (rv == OK <==> topic in n.states[id].topics)
            && multiset(m.states[id].topics) == multiset(n.states[id].topics) - multiset{topic}
            && forall q :: 0 <= q < MAX_SOCKETS && q != id ==> m.states[q] == n.states[q]
  {
    var t := n.states[id].topics;
    var i := IndexOf(t, topic, 0);
    if i < |t| { SwapRemoveMultiset(t, i); }
  }

  lemma SwapRemoveMultiset(t: seq<Body>, i: nat)
    requires i < |t|
    ensures multiset(SwapRemove(t, i)) == multiset(t) - multiset{t[i]}
  {
    var k := |t| - 1;
    assert t == t[..k] + [t[k]];
    if i < k {
      assert SwapRemove(t, i) == t[..i] + [t[k]] + t[i + 1..k];
      assert t == t[..i] + [t[i]] + t[i + 1..k] + [t[k]];
    } else {
      assert SwapRemove(t, i) == t[..k];
    }
  }

  /** Subscribing adds one entry: afterwards the socket accepts what it accepted before and
      whatever starts with the topic, and nothing else. */
  lemma SubscribeWidens(n: Net, id: nat, topic: Body, body: Body)
    requires Shape(n) && Speaks(n, id, SUB) && |topic| <= MAX_TOPIC && |n.states[id].topics| < MAX_SUBS
    ensures var m := Apply(n, Subscribe(id, topic)).0;
            Accepts(m, id, body) <==> Accepts(n, id, body) || IsPrefix(topic, body)
  {
    var t := n.states[id].topics;
    var m := Apply(n, Subscribe(id, topic)).0;
    assert m.states[id].topics[|t|] == topic;
    assert forall i :: 0 <= i < |t| ==> m.states[id].topics[i] == t[i];
  }
}
