/** Replies and survey responses over whole runs. */
module NngReplies {
  import opened NngSpec
  import opened NngLaws
  import opened NngIntact
  import opened NngDelivery

  // ---------------------------------------------------------------------- requests

  /** The REP socket a send would give its request to. */
  predicate Requests(n: Net, call: Call, r: nat) {
    && call.Send? && call.handle in n.held && Speaks(n, call.id, REQ)
    && call.id < |n.states| && r < |n.queues|
    && var peers := Peers(n, call.id, REP);
       && peers != []
       && peers[Turn(n.states[call.id].cursor, |peers|)] == r
       && HasRoom(n, r, n.held[call.handle].body)
  }

  /** REP socket r attempts to deliver a reply. */
  predicate Replies(n: Net, call: Call, r: nat) {
    call.Send? && call.handle in n.held && call.id == r && Speaks(n, r, REP)
    && r < |n.states| && Open(n, n.states[r].replySrc)
  }

  lemma {:induction false} FanOutKeepsReply(n: Net, fan: Fan, peers: seq<nat>, body: Body, k: nat, r: nat)
    requires k <= |peers| && AllSockets(peers) && r < MAX_SOCKETS
    requires |n.queues| == MAX_SOCKETS && |n.states| == MAX_SOCKETS
    ensures FanOut(n, fan, peers, body, k).states[r].replySrc == n.states[r].replySrc
  {
    if k > 0 { FanOutKeepsReply(n, fan, peers, body, k - 1, r); }
  }

  lemma RouteReplySrc(n: Net, id: nat, body: Body, now: nat, r: nat)
    requires Shape(n) && Open(n, id) && r < MAX_SOCKETS
    ensures var m, proto := Route(n, id, body, now).0, n.socks[id].value;
            m.states[r].replySrc ==
            if proto == REQ then (var peers := Peers(n, id, REP);
                                  if peers != [] && peers[Turn(n.states[id].cursor, |peers|)] == r && HasRoom(n, r, body)
                                  then id else n.states[r].replySrc)
            else if proto == REP && id == r && Open(n, n.states[r].replySrc) then -1
            else n.states[r].replySrc
  {
    var proto := n.socks[id].value;
    if proto == PUB || proto == BUS || proto == SURVEYOR {
      FanRouteReplySrc(n, id, body, now, r);
    } else if proto == PUSH {
      PeersValid(n, id, PULL);
    } else if proto == REQ {
      PeersValid(n, id, REP);
    } else if proto == PAIR {
      PeersValid(n, id, PAIR);
    }
  }

  lemma FanRouteReplySrc(n: Net, id: nat, body: Body, now: nat, r: nat)
    requires Shape(n) && Open(n, id) && r < MAX_SOCKETS && n.socks[id].value in {PUB, BUS, SURVEYOR}
    ensures Route(n, id, body, now).0.states[r].replySrc == n.states[r].replySrc
  {
    var proto := n.socks[id].value;
    var (filter, fan) := if proto == PUB then (SUB, ToSubscribers)
                         else if proto == BUS then (BUS, ToAll) else (RESPONDENT, ToRespondents(id));
    PeersValid(n, id, filter);
    FanOutKeepsReply(n, fan, Peers(n, id, filter), body, |Peers(n, id, filter)|, r);
  }

  /** The call creates socket r anew. */
  ghost predicate Recreates(n: Net, call: Call, r: nat)
    requires Shape(n)
  {
    call.Create? && r < 16 && n.socks[r].None? && forall i :: 0 <= i < r ==> n.socks[i].Some?
  }

  /** How one step changes the pending request of r: a delivered request sets it to its
      sender, a reply and the creation of a socket clear it, and nothing else touches it. */
  lemma PendingStep(n: Net, call: Call, r: nat)
    requires Shape(n) && r < MAX_SOCKETS
    ensures var was, now := n.states[r].replySrc, Apply(n, call).0.states[r].replySrc;
            if Requests(n, call, r) then now == call.id && !Replies(n, call, r)
            else if Replies(n, call, r) then now == -1 && was >= 0
            else if Recreates(n, call, r) then now == -1
            else now == was
  {
    if call.Send? && Open(n, call.id) && call.handle in n.held {
      RouteReplySrc(n, call.id, n.held[call.handle].body, call.now, r);
    }
  }

  function RequestCount(nets: seq<Net>, calls: seq<Call>, r: nat, k: nat): nat
    requires k <= |calls| <= |nets|
  {
    if k == 0 then 0 else
      RequestCount(nets, calls, r, k - 1) + (if Requests(nets[k - 1], calls[k - 1], r) then 1 else 0)
  }

  function ReplyCount(nets: seq<Net>, calls: seq<Call>, r: nat, k: nat): nat
    requires k <= |calls| <= |nets|
  {
    if k == 0 then 0 else
      ReplyCount(nets, calls, r, k - 1) + (if Replies(nets[k - 1], calls[k - 1], r) then 1 else 0)
  }

  /** The sender of the latest request delivered to r, or -1. */
  function LastRequester(nets: seq<Net>, calls: seq<Call>, r: nat, k: nat): int
    requires k <= |calls| <= |nets|
  {
    if k == 0 then -1
    else if Requests(nets[k - 1], calls[k - 1], r) then calls[k - 1].id
    else LastRequester(nets, calls, r, k - 1)
  }

  lemma PendingRunStep(nets: seq<Net>, calls: seq<Call>, i: nat, r: nat)
    requires IsRun(nets, calls) && i < |calls| && r < MAX_SOCKETS
    ensures var was, now := nets[i].states[r].replySrc, nets[i + 1].states[r].replySrc;
            if Requests(nets[i], calls[i], r) then now == calls[i].id && now >= 0 && !Replies(nets[i], calls[i], r)
            else if Replies(nets[i], calls[i], r) then now == -1 && was >= 0
            else now == was || now == -1
  {
    assert StepAt(nets, calls, i);
    PendingStep(nets[i], calls[i], r);
  }

  /** Over any run: the replies a socket has attempted, plus one if a request is pending, do
      not exceed the requests delivered to it, and what is pending is the latest of these. */
  lemma {:induction false} NoReplyWithoutRequest(nets: seq<Net>, calls: seq<Call>, r: nat, k: nat)
    requires IsRun(nets, calls) && Initial(nets[0]) && k <= |calls| && r < MAX_SOCKETS
    ensures var pending := nets[k].states[r].replySrc;
            && ReplyCount(nets, calls, r, k) + (if pending >= 0 then 1 else 0) <= RequestCount(nets, calls, r, k)
            && (pending >= 0 ==> pending == LastRequester(nets, calls, r, k))
  {
    if k > 0 {
      NoReplyWithoutRequest(nets, calls, r, k - 1);
      PendingRunStep(nets, calls, k - 1, r);
    } else {
      assert nets[0].states[r] == Cleared(nets[0].states[r]);
    }
  }

  /** A reply is queued at the socket that sent the latest request, and only there; it is in
      the heap as it was sent, as long as it fits a small block. */
  lemma ReplyGoesToRequester(nets: seq<Net>, calls: seq<Call>, r: nat, k: nat, q: nat)
    requires IsRun(nets, calls) && Initial(nets[0]) && k < |calls| && r < MAX_SOCKETS && q < MAX_SOCKETS
    requires Replies(nets[k], calls[k], r) && nets[k].intact && Fits(nets[k], calls[k])
    ensures nets[k + 1].intact
    ensures nets[k].states[r].replySrc == LastRequester(nets, calls, r, k) >= 0
    ensures q != LastRequester(nets, calls, r, k) ==> nets[k + 1].queues[q] == nets[k].queues[q]
    ensures q == LastRequester(nets, calls, r, k) && HasRoom(nets[k], q, nets[k].held[calls[k].handle].body) ==>
              nets[k + 1].queues[q] == nets[k].queues[q] + [nets[k].held[calls[k].handle].body]
  {
    NoReplyWithoutRequest(nets, calls, r, k);
    IntactWhileFitting(nets, calls, k, k + 1);
    assert StepAt(nets, calls, k);
  }

  // ----------------------------------------------------------------------- surveys

  /** RESPONDENT socket r attempts to deliver a response. */
  predicate Responds(n: Net, call: Call, r: nat) {
    && call.Send? && call.handle in n.held && call.id == r && Speaks(n, r, RESPONDENT)
    && r < |n.states| && Open(n, n.states[r].respondentSrc) && n.states[r].respondentSrc < |n.states|
    && var s := n.states[n.states[r].respondentSrc]; s.active && call.now <= s.deadline
  }

  /** How many survey copies this call puts into the queue of r. */
  ghost function SurveysTo(n: Net, call: Call, r: nat): nat
    requires Shape(n) && r < MAX_SOCKETS
  {
    if call.Send? && call.handle in n.held && Speaks(n, call.id, SURVEYOR)
    then |Added(n, Apply(n, call).0, r)| else 0
  }

  /** During a survey, r's return address changes only if r gets a copy. */
  lemma {:induction false} SurveyMarks(n: Net, from: nat, peers: seq<nat>, body: Body, k: nat, r: nat)
    requires k <= |peers| && AllSockets(peers) && r < MAX_SOCKETS
    requires |n.queues| == MAX_SOCKETS && |n.states| == MAX_SOCKETS
    ensures var m := FanOut(n, ToRespondents(from), peers, body, k);
            && |m.queues[r]| >= |n.queues[r]|
            && m.states[r].respondentSrc ==
               (if |m.queues[r]| > |n.queues[r]| then from else n.states[r].respondentSrc)
  {
    if k > 0 { SurveyMarks(n, from, peers, body, k - 1, r); }
  }

  lemma {:induction false} FanOutKeepsRespondent(n: Net, fan: Fan, peers: seq<nat>, body: Body, k: nat, r: nat)
    requires k <= |peers| && AllSockets(peers) && r < MAX_SOCKETS && !fan.ToRespondents?
    requires |n.queues| == MAX_SOCKETS && |n.states| == MAX_SOCKETS
    ensures FanOut(n, fan, peers, body, k).states[r].respondentSrc == n.states[r].respondentSrc
  {
    if k > 0 { FanOutKeepsRespondent(n, fan, peers, body, k - 1, r); }
  }

  lemma SurveyRespondentSrc(n: Net, id: nat, body: Body, now: nat, r: nat)
    requires Shape(n) && Speaks(n, id, SURVEYOR) && r < MAX_SOCKETS
    ensures var m := Route(n, id, body, now).0;
            && |m.queues[r]| >= |n.queues[r]|
            && (m.states[r].respondentSrc == if |m.queues[r]| > |n.queues[r]| then id else n.states[r].respondentSrc)
  {
    PeersValid(n, id, RESPONDENT);
    SurveyMarks(n, id, Peers(n, id, RESPONDENT), body, |Peers(n, id, RESPONDENT)|, r);
  }

  lemma FanRespondentSrc(n: Net, id: nat, body: Body, now: nat, r: nat)
    requires Shape(n) && Open(n, id) && r < MAX_SOCKETS && n.socks[id].value in {PUB, BUS}
    ensures Route(n, id, body, now).0.states[r].respondentSrc == n.states[r].respondentSrc
  {
    var (filter, fan) := if n.socks[id].value == PUB then (SUB, ToSubscribers) else (BUS, ToAll);
    PeersValid(n, id, filter);
    FanOutKeepsRespondent(n, fan, Peers(n, id, filter), body, |Peers(n, id, filter)|, r);
  }

  lemma OtherRespondentSrc(n: Net, id: nat, body: Body, now: nat, r: nat)
    requires Shape(n) && Open(n, id) && r < MAX_SOCKETS && n.socks[id].value != SURVEYOR
    ensures var m, was := Route(n, id, body, now).0, n.states[r].respondentSrc;
            m.states[r].respondentSrc ==
            if Speaks(n, id, RESPONDENT) && id == r && Open(n, was) then -1 else was
  {
    var proto := n.socks[id].value;
    if proto == PUB || proto == BUS {
      FanRespondentSrc(n, id, body, now, r);
    } else if proto == PUSH {
      PeersValid(n, id, PULL);
    } else if proto == REQ {
      PeersValid(n, id, REP);
    } else if proto == PAIR {
      PeersValid(n, id, PAIR);
    }
  }

  /** RESPONDENT socket r sends too late, to a surveyor that is still open. */
  predicate RespondsLate(n: Net, call: Call, r: nat) {
    && call.Send? && call.handle in n.held && call.id == r && Speaks(n, r, RESPONDENT)
    && r < |n.states| && Open(n, n.states[r].respondentSrc) && !Responds(n, call, r)
  }

  /** How one step changes the pending survey of r: a survey that reaches it sets it to its sender,
      a response, in time or not, and the creation of a socket clear it, and nothing else touches
      it. */
  lemma SurveyStep(n: Net, call: Call, r: nat)
    requires Shape(n) && r < MAX_SOCKETS
    ensures var was, now := n.states[r].respondentSrc, Apply(n, call).0.states[r].respondentSrc;
            if SurveysTo(n, call, r) > 0 then now == call.id >= 0 && !Responds(n, call, r)
            else if Responds(n, call, r) then now == -1 && was >= 0
            else if RespondsLate(n, call, r) || Recreates(n, call, r) then now == -1
            else now == was
  {
    if call.Send? && Open(n, call.id) && call.handle in n.held {
      if Speaks(n, call.id, SURVEYOR) {
        SurveyRespondentSrc(n, call.id, n.held[call.handle].body, call.now, r);
      } else {
        OtherRespondentSrc(n, call.id, n.held[call.handle].body, call.now, r);
      }
    }
  }

  /** How many surveys have reached r; a survey that comes over two pipes is still one. */
  ghost function SurveyCount(nets: seq<Net>, calls: seq<Call>, r: nat, k: nat): nat
    requires k <= |calls| <= |nets| && AllShaped(nets) && r < MAX_SOCKETS
  {
    if k == 0 then 0 else
      SurveyCount(nets, calls, r, k - 1) + (if SurveysTo(nets[k - 1], calls[k - 1], r) > 0 then 1 else 0)
  }

  function ResponseCount(nets: seq<Net>, calls: seq<Call>, r: nat, k: nat): nat
    requires k <= |calls| <= |nets|
  {
    if k == 0 then 0 else
      ResponseCount(nets, calls, r, k - 1) + (if Responds(nets[k - 1], calls[k - 1], r) then 1 else 0)
  }

  /** The sender of the latest survey that reached r, or -1. */
  ghost function LastSurveyor(nets: seq<Net>, calls: seq<Call>, r: nat, k: nat): int
    requires k <= |calls| <= |nets| && AllShaped(nets) && r < MAX_SOCKETS
  {
    if k == 0 then -1
    else if SurveysTo(nets[k - 1], calls[k - 1], r) > 0 then calls[k - 1].id
    else LastSurveyor(nets, calls, r, k - 1)
  }

  lemma SurveyRunStep(nets: seq<Net>, calls: seq<Call>, i: nat, r: nat)
    requires IsRun(nets, calls) && i < |calls| && r < MAX_SOCKETS
    ensures var was, now := nets[i].states[r].respondentSrc, nets[i + 1].states[r].respondentSrc;
            if SurveysTo(nets[i], calls[i], r) > 0 then now == calls[i].id && now >= 0 && !Responds(nets[i], calls[i], r)
            else if Responds(nets[i], calls[i], r) then now == -1 && was >= 0
            else now == was || now == -1
  {
    assert StepAt(nets, calls, i);
    SurveyStep(nets[i], calls[i], r);
  }

  /** Over any run: the responses a socket has attempted, plus one if a survey is pending, do
      not exceed the surveys that reached it, and what is pending is the latest of these. */
  lemma {:induction false} NoResponseWithoutSurvey(nets: seq<Net>, calls: seq<Call>, r: nat, k: nat)
    requires IsRun(nets, calls) && Initial(nets[0]) && k <= |calls| && r < MAX_SOCKETS
    ensures var pending := nets[k].states[r].respondentSrc;
            && ResponseCount(nets, calls, r, k) + (if pending >= 0 then 1 else 0) <= SurveyCount(nets, calls, r, k)
            && (pending >= 0 ==> pending == LastSurveyor(nets, calls, r, k))
  {
    if k > 0 {
      NoResponseWithoutSurvey(nets, calls, r, k - 1);
      SurveyRunStep(nets, calls, k - 1, r);
    } else {
      assert nets[0].states[r] == Cleared(nets[0].states[r]);
    }
  }

  /** A response is queued at the socket that sent the latest survey, and only there; it is in
      the heap as it was sent, as long as it fits a small block. */
  lemma ResponseGoesToSurveyor(nets: seq<Net>, calls: seq<Call>, r: nat, k: nat, q: nat)
    requires IsRun(nets, calls) && Initial(nets[0]) && k < |calls| && r < MAX_SOCKETS && q < MAX_SOCKETS
    requires Responds(nets[k], calls[k], r) && nets[k].intact && Fits(nets[k], calls[k])
    ensures nets[k + 1].intact
    ensures nets[k].states[r].respondentSrc == LastSurveyor(nets, calls, r, k) >= 0
    ensures q != LastSurveyor(nets, calls, r, k) ==> nets[k + 1].queues[q] == nets[k].queues[q]
    ensures q == LastSurveyor(nets, calls, r, k) && HasRoom(nets[k], q, nets[k].held[calls[k].handle].body) ==>
              nets[k + 1].queues[q] == nets[k].queues[q] + [nets[k].held[calls[k].handle].body]
  {
    NoResponseWithoutSurvey(nets, calls, r, k);
    IntactWhileFitting(nets, calls, k, k + 1);
    assert StepAt(nets, calls, k);
  }

  /** A RESPONDENT's send that is not a response in time changes no queue at all. */
  lemma LateResponseIsDropped(n: Net, call: Call, r: nat)
    requires Shape(n) && r < MAX_SOCKETS && call.Send? && call.id == r && Speaks(n, r, RESPONDENT)
    requires !Responds(n, call, r)
    ensures Apply(n, call).0.queues == n.queues && Apply(n, call).1 != OK
  {}

  /** A receive ends the receiver's own survey if it is past its deadline, and touches no other
      part of anybody's state. */
  lemma ReceiveExpires(n: Net, id: nat, p: nat, now: nat, q: nat)
    requires Shape(n) && Open(n, id) && q < 16
    ensures var m := Apply(n, Recv(id, p, now)).0;
            m.states[q] == n.states[q].(active := n.states[q].active
                                                  && !(q == id && n.socks[id] == Some(9) && now > n.states[id].deadline))
  {}

  // ------------------------------------------------------------- a response in time

  /** Nobody surveys, the two sockets neither send nor close, and the surveyor does not look for
      responses after the deadline. */
  predicate Quiet(n: Net, call: Call, v: nat, r: nat, until: nat) {
    && (call.Send? ==> call.id != v && call.id != r && !Speaks(n, call.id, 9))
    && (call.Close? ==> call.id != v && call.id != r)
    && (call.Recv? && call.id == v ==> call.now <= until)
  }

  lemma {:induction false} FanOutKeepsSurvey(n: Net, fan: Fan, peers: seq<nat>, body: Body, k: nat, v: nat)
    requires k <= |peers| && AllSockets(peers) && v < MAX_SOCKETS
    requires |n.queues| == MAX_SOCKETS && |n.states| == MAX_SOCKETS
    ensures var m := FanOut(n, fan, peers, body, k);
            m.states[v].active == n.states[v].active && m.states[v].deadline == n.states[v].deadline
  {
    if k > 0 { FanOutKeepsSurvey(n, fan, peers, body, k - 1, v); }
  }

  lemma FanKeepsSurvey(n: Net, id: nat, body: Body, now: nat, v: nat)
    requires Shape(n) && Open(n, id) && n.socks[id].value in {PUB, BUS} && v < 16
    ensures var m := Route(n, id, body, now).0;
            m.states[v].active == n.states[v].active && m.states[v].deadline == n.states[v].deadline
  {
    var (filter, fan) := if n.socks[id].value == PUB then (SUB, ToSubscribers) else (BUS, ToAll);
    PeersValid(n, id, filter);
    FanOutKeepsSurvey(n, fan, Peers(n, id, filter), body, |Peers(n, id, filter)|, v);
  }

  lemma RouteKeepsSurvey(n: Net, id: nat, body: Body, now: nat, v: nat)
    requires Shape(n) && Open(n, id) && n.socks[id].value != 9 && v < 16
    ensures var m := Route(n, id, body, now).0;
            m.states[v].active == n.states[v].active && m.states[v].deadline == n.states[v].deadline
  {
    var proto := n.socks[id].value;
    if proto == PUB || proto == BUS {
      FanKeepsSurvey(n, id, body, now, v);
    } else if proto == PUSH {
      PeersValid(n, id, PULL);
    } else if proto == REQ {
      PeersValid(n, id, REP);
    } else if proto == PAIR {
      PeersValid(n, id, PAIR);
    }
  }

  /** Socket r owes surveyor v a response, by the deadline. */
  predicate Owes(n: Net, v: nat, r: nat, until: nat) {
    && Speaks(n, v, 9) && Speaks(n, r, 10) && v < |n.states| && r < |n.states|
    && n.states[r].respondentSrc == v && n.states[v].active && n.states[v].deadline == until
  }

  lemma QuietStep(n: Net, call: Call, v: nat, r: nat, until: nat)
    requires Shape(n) && Owes(n, v, r, until) && Quiet(n, call, v, r, until)
    ensures Owes(Apply(n, call).0, v, r, until)
  {
    SurveyStep(n, call, r);
    if call.Send? && Open(n, call.id) && call.handle in n.held {
      RouteKeepsSurvey(n, call.id, n.held[call.handle].body, call.now, v);
    }
  }

  /** A survey that reaches r opens for 100 ticks. */
  lemma SurveyOpens(n: Net, call: Call, r: nat)
    requires Shape(n) && r < 16 && SurveysTo(n, call, r) > 0 && Speaks(n, r, 10)
    ensures Owes(Apply(n, call).0, call.id, r, call.now + 100)
  {
    SurveyStep(n, call, r);
  }

  lemma {:induction false} StillOwes(nets: seq<Net>, calls: seq<Call>, a: nat, b: nat, r: nat)
    requires IsRun(nets, calls) && a < b <= |calls| && r < 16
    requires SurveysTo(nets[a], calls[a], r) > 0 && Speaks(nets[a], r, 10)
    requires forall i :: a < i < b ==> Quiet(nets[i], calls[i], calls[a].id, r, calls[a].now + 100)
    ensures calls[a].id >= 0 && Owes(nets[b], calls[a].id, r, calls[a].now + 100)
    decreases b
  {
    if b == a + 1 {
      assert StepAt(nets, calls, a);
      SurveyOpens(nets[a], calls[a], r);
    } else {
      StillOwes(nets, calls, a, b - 1, r);
      assert StepAt(nets, calls, b - 1);
      QuietStep(nets[b - 1], calls[b - 1], calls[a].id, r, calls[a].now + 100);
    }
  }

  /** A response within 100 ticks of the survey is queued at the surveyor, whatever the others have
      done in between, if there is room for it. */
  lemma ResponseInTime(nets: seq<Net>, calls: seq<Call>, a: nat, b: nat, r: nat)
    requires IsRun(nets, calls) && a < b < |calls| && r < 16
    requires SurveysTo(nets[a], calls[a], r) > 0 && Speaks(nets[a], r, 10)
    requires forall i :: a < i < b ==> Quiet(nets[i], calls[i], calls[a].id, r, calls[a].now + 100)
    requires calls[b].Send? && calls[b].id == r && calls[b].handle in nets[b].held && calls[b].now <= calls[a].now + 100
    ensures var v, body := calls[a].id, nets[b].held[calls[b].handle].body;
            && 0 <= v < 16
            && (nets[b].used < 64 && nets[b].small >= 2 && |body| <= 256 && |nets[b].queues[v]| < 16 ==>
                  nets[b + 1].queues[v] == nets[b].queues[v] + [body] && Apply(nets[b], calls[b]).1 == 0)
  {
    StillOwes(nets, calls, a, b, r);
    assert StepAt(nets, calls, b);
  }
}
