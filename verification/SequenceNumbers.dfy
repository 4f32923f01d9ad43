/**
 Why a reply belongs to the request it is taken for. A system of steps: one client that waits for one
 reply at a time, a device that may answer any request it got, late or more than once, and a reply
 channel that keeps the order but may lose replies. Requests are identified by their position in
 history; on the wire they only carry an eight-bit number.
 */
module SequenceNumbers {
  import opened Bytes
  import opened Framing
  import opened FramingTheorems
  import opened Smp
  import Crc

  datatype InFlight = InFlight(id: nat, sequenceNum: u8)

  // A reply that was taken for the answer to a request.
  datatype Taken = Taken(reply: nat, request: nat)

  datatype State = State(
    next: u8,  // the client's next sequence number
    requests: seq<u8>,  // the number every request so far was sent with
    waiting: bool,  // for the reply to the last request
    channel: seq<InFlight>,
    taken: seq<Taken>
  )

  datatype Step =
    | Send(written: bool)  // a request, or a failed attempt to write one
    | Answer(id: nat)
    | Lose(i: nat)
    | Skip  // a reply with a foreign number
    | Accept
    | Refuse  // a reply with the right number but the wrong group, command, operation or length
    | GiveUp  // time-out or transport error

  function Start(number: u8): State {
    State(number, [], false, [], [])
  }

  // The first reply in the channel has the number of the request the client waits for.
  predicate HeadMatches(s: State) {
    && s.waiting && s.channel != [] && s.requests != []
    && s.channel[0].sequenceNum == s.requests[|s.requests| - 1]
  }

  predicate Enabled(s: State, step: Step) {
    match step
    case Send(_) => !s.waiting
    case Answer(id) => id < |s.requests|
    case Lose(i) => i < |s.channel|
    case Skip => s.waiting && s.channel != [] && !HeadMatches(s)
    case Accept => HeadMatches(s)
    case Refuse => HeadMatches(s)
    case GiveUp => s.waiting
  }

  function Take(s: State, step: Step): State
    requires Enabled(s, step)
  {
    match step
    case Send(written) => s.(next := (s.next + 1) % 0x100, requests := s.requests + [s.next], waiting := written)
    case Answer(id) => s.(channel := s.channel + [InFlight(id, s.requests[id])])
    case Lose(i) => s.(channel := s.channel[..i] + s.channel[i + 1..])
    case Skip => s.(channel := s.channel[1..])
    case Accept =>
      s.(waiting := false, channel := s.channel[1..], taken := s.taken + [Taken(s.channel[0].id, |s.requests| - 1)])
    case Refuse => s.(waiting := false, channel := s.channel[1..])
    case GiveUp => s.(waiting := false)
  }

  predicate Possible(s: State, steps: seq<Step>)
    decreases steps
  {
    steps == [] || (Enabled(s, steps[0]) && Possible(Take(s, steps[0]), steps[1..]))
  }

  function Run(s: State, steps: seq<Step>): State
    requires Possible(s, steps)
    decreases steps
  {
    if steps == [] then s else Run(Take(s, steps[0]), steps[1..])
  }

  // The number a request gets, counting from the random number the client started with.
  function NumberOf(start: u8, id: nat): u8 {
    (start + id) % 0x100
  }

  ghost predicate Invariant(start: u8, s: State) {
    && s.next == NumberOf(start, |s.requests|)
    && (s.waiting ==> s.requests != [])
    && (forall i :: 0 <= i < |s.requests| ==> s.requests[i] == NumberOf(start, i))
    && (forall i :: 0 <= i < |s.channel| ==>
          s.channel[i].id < |s.requests| && s.channel[i].sequenceNum == NumberOf(start, s.channel[i].id))
    && (forall i :: 0 <= i < |s.taken| ==>
          && s.taken[i].reply <= s.taken[i].request < |s.requests|
          && s.taken[i].reply % 0x100 == s.taken[i].request % 0x100)
  }

  lemma SameNumber(start: u8, i: nat, j: nat)
    ensures NumberOf(start, i) == NumberOf(start, j) <==> i % 0x100 == j % 0x100
  {
  }

  lemma StepKeepsInvariant(start: u8, s: State, step: Step)
    requires Invariant(start, s) && Enabled(s, step)
    ensures Invariant(start, Take(s, step))
  {
    hide NumberOf;
    match step
    case Send(_) => NextNumber(start, |s.requests|);
    case Accept => SameNumber(start, s.channel[0].id, |s.requests| - 1);
    case _ =>
  }

  lemma NextNumber(start: u8, id: nat)
    ensures NumberOf(start, id + 1) == (NumberOf(start, id) + 1) % 0x100
  {
  }

  lemma {:induction false} RunKeepsInvariant(start: u8, s: State, steps: seq<Step>)
    requires Invariant(start, s) && Possible(s, steps)
    ensures Invariant(start, Run(s, steps))
    decreases steps
  {
    hide Invariant;
    if steps != [] {
      StepKeepsInvariant(start, s, steps[0]);
      RunKeepsInvariant(start, Take(s, steps[0]), steps[1..]);
    }
  }

  // In every run, a reply is only ever taken for its own request or one that is a multiple of 256 newer.
  lemma TakenRepliesAreCongruent(start: u8, steps: seq<Step>, k: nat)
    requires Possible(Start(start), steps) && k < |Run(Start(start), steps).taken|
    ensures var t := Run(Start(start), steps).taken[k];
            t.reply <= t.request && t.reply % 0x100 == t.request % 0x100
  {
    RunKeepsInvariant(start, Start(start), steps);
  }

  // In every run, an accepted reply answers the current request exactly if it is less than 256 requests old.
  lemma AcceptedReplyIsCurrent(start: u8, steps: seq<Step>)
    requires Possible(Start(start), steps) && HeadMatches(Run(Start(start), steps))
    ensures var s := Run(Start(start), steps);
            s.channel[0].id == |s.requests| - 1 <==> |s.requests| - 1 - s.channel[0].id < 0x100
  {
    RunKeepsInvariant(start, Start(start), steps);
    HeadIsCurrent(start, Run(Start(start), steps));
  }

  lemma HeadIsCurrent(start: u8, s: State)
    requires Invariant(start, s) && HeadMatches(s)
    ensures s.channel[0].id == |s.requests| - 1 <==> |s.requests| - 1 - s.channel[0].id < 0x100
  {
    var current, id := |s.requests| - 1, s.channel[0].id;
    assert s.requests[current] == NumberOf(start, current);
    SameNumber(start, id, current);
    Apart(id, current);
  }

  lemma Apart(i: nat, j: nat)
    requires i <= j && i % 0x100 == j % 0x100
    ensures i == j <==> j - i < 0x100
  {
    assert (j - i) % 0x100 == 0;
  }

  // So if no reply stays in the channel for 256 requests, no reply is ever mistaken.

  predicate Fresh(s: State) {
    forall i :: 0 <= i < |s.channel| ==> |s.requests| - 1 - s.channel[i].id < 0x100
  }

  predicate AlwaysFresh(s: State, steps: seq<Step>)
    requires Possible(s, steps)
    decreases steps
  {
    Fresh(s) && (steps != [] ==> AlwaysFresh(Take(s, steps[0]), steps[1..]))
  }

  predicate NoneMistaken(s: State) {
    forall i :: 0 <= i < |s.taken| ==> s.taken[i].reply == s.taken[i].request
  }

  lemma StepMistakesNothing(start: u8, s: State, step: Step)
    requires Invariant(start, s) && Enabled(s, step) && Fresh(s) && NoneMistaken(s)
    ensures NoneMistaken(Take(s, step))
  {
    if step.Accept? {
      HeadIsCurrent(start, s);
    }
  }

  lemma {:induction false} RunMistakesNothing(start: u8, s: State, steps: seq<Step>)
    requires Invariant(start, s) && Possible(s, steps) && AlwaysFresh(s, steps) && NoneMistaken(s)
    ensures NoneMistaken(Run(s, steps))
    decreases steps
  {
    hide Invariant, NoneMistaken;
    if steps != [] {
      StepKeepsInvariant(start, s, steps[0]);
      StepMistakesNothing(start, s, steps[0]);
      RunMistakesNothing(start, Take(s, steps[0]), steps[1..]);
    }
  }

  lemma NoReplyIsMistaken(start: u8, steps: seq<Step>)
    requires Possible(Start(start), steps) && AlwaysFresh(Start(start), steps)
    ensures NoneMistaken(Run(Start(start), steps))
  {
    RunMistakesNothing(start, Start(start), steps);
  }

  // The bound is sharp: a reply that is exactly 256 requests old is mistaken.

  // n requests that all time out.
  function TimeOuts(n: nat): seq<Step> {
    if n == 0 then [] else [Send(true), GiveUp] + TimeOuts(n - 1)
  }

  lemma RunFirst(s: State, step: Step, steps: seq<Step>)
    requires Enabled(s, step)
    ensures Possible(s, [step] + steps) <==> Possible(Take(s, step), steps)
    ensures Possible(Take(s, step), steps) ==> Run(s, [step] + steps) == Run(Take(s, step), steps)
  {
    hide Enabled, Take;
    assert ([step] + steps)[1..] == steps;
  }

  lemma {:induction false} RunTimeOuts(s: State, n: nat, steps: seq<Step>) returns (t: State)
    requires !s.waiting
    ensures !t.waiting && t.channel == s.channel && t.taken == s.taken
    ensures |t.requests| == |s.requests| + n && t.next == (s.next + n) % 0x100
    ensures Possible(s, TimeOuts(n) + steps) <==> Possible(t, steps)
    ensures Possible(t, steps) ==> Run(s, TimeOuts(n) + steps) == Run(t, steps)
    decreases n
  {
    hide Possible, Run;
    assert (s.next + n) % 0x100 == ((s.next + 1) % 0x100 + (n - 1)) % 0x100;
    if n == 0 {
      t := s;
      assert TimeOuts(n) + steps == steps;
    } else {
      var s1 := Take(s, Send(true));
      var s2 := Take(s1, GiveUp);
      t := RunTimeOuts(s2, n - 1, steps);
      var rest := TimeOuts(n - 1) + steps;
      RunFirst(s, Send(true), [GiveUp] + rest);
      RunFirst(s1, GiveUp, rest);
      assert TimeOuts(n) + steps == [Send(true)] + ([GiveUp] + rest);
    }
  }

  // A request is answered late, 255 more time out, and the next one gets the old answer.
  function LateAnswer(): seq<Step> {
    [Send(true), Answer(0), GiveUp] + (TimeOuts(0xff) + [Send(true), Accept])
  }

  lemma OldReplyIsMistaken(start: u8)
    ensures Possible(Start(start), LateAnswer())
    ensures Run(Start(start), LateAnswer()).taken == [Taken(0, 0x100)]
  {
    hide Possible, Run, TimeOuts;
    var s1 := Take(Start(start), Send(true));
    var s2 := Take(s1, Answer(0));
    var s3 := Take(s2, GiveUp);
    var last := [Send(true)] + [Accept];
    var t := RunTimeOuts(s3, 0xff, last);
    var t1 := Take(t, Send(true));
    assert t1.channel[0].sequenceNum == start == t1.requests[0x100];
    RunNothing(Take(t1, Accept));
    assert [Accept] == [Accept] + [];
    RunFirst(t1, Accept, []);
    RunFirst(t, Send(true), [Accept]);
    var waits := TimeOuts(0xff) + last;
    RunFirst(s2, GiveUp, waits);
    RunFirst(s1, Answer(0), [GiveUp] + waits);
    RunFirst(Start(start), Send(true), [Answer(0)] + ([GiveUp] + waits));
    assert LateAnswer() == [Send(true)] + ([Answer(0)] + ([GiveUp] + waits));
  }

  lemma RunNothing(s: State)
    ensures Possible(s, []) && Run(s, []) == s
  {
  }

  // On the wire: the frames a device sends carry the numbers of the requests they answer.

  ghost predicate Answers(sent: seq<Sent>, ids: seq<nat>, start: u8) {
    && Sendable(sent) && |ids| == |sent|
    && forall i :: 0 <= i < |sent| ==>
         |sent[i].message| >= HEADER_SIZE && sent[i].message[6] == NumberOf(start, ids[i])
  }

  // If every frame in the stream answers one of the last 256 requests, the receiver decides on the first
  // frame that answers the current request, and on nothing else.
  lemma CurrentReplyDecides(sent: seq<Sent>, ids: seq<nat>, start: u8, current: nat, request: Request, k: nat, rest: seq<byte>)
    requires Answers(sent, ids, start) && request.sequenceNum == NumberOf(start, current)
    requires forall i :: 0 <= i < |ids| ==> ids[i] <= current < ids[i] + 0x100
    requires k < |ids| && ids[k] == current && forall i :: 0 <= i < k ==> ids[i] != current
    ensures ScanReply(Transmit(sent) + rest, request) == Judge(sent[k].message, Transmit(sent[k + 1..]) + rest, request)
  {
    hide ScanReply, Judge, Transmit, Wire, Seal, Stale, Noise, NumberOf;
    OthersAreStale(sent, ids, start, current, request, k);
    SplitTransmission(sent, k, rest);
    StaleRepliesAreSkipped(sent[..k], request, Transmit(sent[k..]) + rest);
    FirstFrameDecides(sent[k], request, Transmit(sent[k + 1..]) + rest);
  }

  lemma OthersAreStale(sent: seq<Sent>, ids: seq<nat>, start: u8, current: nat, request: Request, k: nat)
    requires Answers(sent, ids, start) && request.sequenceNum == NumberOf(start, current)
    requires forall i :: 0 <= i < |ids| ==> ids[i] <= current < ids[i] + 0x100
    requires k < |ids| && ids[k] == current && forall i :: 0 <= i < k ==> ids[i] != current
    ensures Sendable(sent) && Stale(sent[..k], request)
    ensures |sent[k].message| >= HEADER_SIZE && sent[k].message[6] == request.sequenceNum
    ensures |sent[k].message| + 2 < 0x1_0000 && Noise(sent[k].noise, true)
  {
    hide NumberOf;
    forall i | 0 <= i < k
      ensures sent[i].message[6] != request.sequenceNum
    {
      SameNumber(start, ids[i], current);
      if ids[i] % 0x100 == current % 0x100 {
        Apart(ids[i], current);
      }
    }
  }

  lemma SplitTransmission(sent: seq<Sent>, k: nat, rest: seq<byte>)
    requires Sendable(sent) && k < |sent|
    ensures Sendable(sent[k..]) && Sendable(sent[k + 1..]) && Sendable(sent[..k])
    ensures Transmit(sent) + rest == Transmit(sent[..k]) + (Transmit(sent[k..]) + rest)
    ensures Transmit(sent[k..]) + rest
         == sent[k].noise + Wire(Seal(sent[k].message)) + (Transmit(sent[k + 1..]) + rest)
  {
    hide Transmit, Noise, Wire, Crc.Checksum;
    var head, tail := sent[..k], sent[k..];
    assert head + tail == sent && tail[0] == sent[k] && tail[1..] == sent[k + 1..];
    TransmitAppend(head, tail);
    TransmitStep(tail);
    Associative(sent[k].noise + Wire(Seal(sent[k].message)), Transmit(tail[1..]), rest);
    Associative(Transmit(head), Transmit(tail), rest);
  }

  lemma Associative(a: seq<byte>, b: seq<byte>, c: seq<byte>)
    ensures (a + b) + c == a + (b + c)
  {
  }

  lemma TransmitStep(sent: seq<Sent>)
    requires Sendable(sent) && sent != []
    ensures Transmit(sent) == sent[0].noise + Wire(Seal(sent[0].message)) + Transmit(sent[1..])
  {
    hide Noise, Wire, Crc.Checksum;
  }

  lemma FirstFrameDecides(sent: Sent, request: Request, rest: seq<byte>)
    requires |sent.message| + 2 < 0x1_0000 && Noise(sent.noise, true)
    requires |sent.message| >= HEADER_SIZE && sent.message[6] == request.sequenceNum
    ensures ScanReply(sent.noise + Wire(Seal(sent.message)) + rest, request) == Judge(sent.message, rest, request)
  {
    hide ScanFrame, Judge, Wire, Crc.Checksum;
    RoundTrip(sent.noise, sent.message, rest);
  }
}
