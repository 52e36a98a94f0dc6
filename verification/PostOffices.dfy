// Mail between machines (network/post.cc over machine/network.cc), seen from one receiving post office: senders put
// packets on a network that may lose them, a poll moves the next packet into the one-packet inbox and signals the
// postal worker, the worker fetches it and puts it into the mailbox named in its header, and receivers take mail
// out of boxes.
module PostOffices {
  import opened Basics
  import opened Words

  const MAX_PACKET_SIZE := 52
  const HEADER_SIZE := 12
  const MAX_MAIL_SIZE := 40

  // ---------------------------------------------------------------- mail as bytes

  /** `sender` comes from the packet header, `to` and `from` are mail boxes. */
  datatype Mail = Mail(sender: int, to: Int32, from: Int32, payload: seq<Byte>)

  /** What Send asserts of its arguments. */
  predicate Sendable(m: Mail, numBoxes: nat) {
    |m.payload| <= MAX_MAIL_SIZE && 0 <= m.to < numBoxes
  }

  /** The data of a packet: the mail header, then the payload. */
  function Frame(m: Mail): (b: seq<Byte>)
    requires |m.payload| <= MAX_MAIL_SIZE
    ensures HEADER_SIZE <= |b| == HEADER_SIZE + |m.payload| <= MAX_PACKET_SIZE
  {
    IntBytes(m.to) + IntBytes(m.from) + WordBytes(|m.payload|) + m.payload
  }

  /** What the worker reads out of its buffer. */
  function Unframe(sender: int, buffer: seq<Byte>): (m: Option<Mail>)
    requires |buffer| == MAX_PACKET_SIZE
  {
    var length := BytesWord(buffer[8..12]);
    if length > MAX_MAIL_SIZE then None
    else Some(Mail(sender, BytesInt(buffer[0..4]), BytesInt(buffer[4..8]), buffer[12..12 + length]))
  }

  /** A packet read into a buffer that still holds bytes of earlier packets gives back exactly the mail. */
  lemma FrameRoundTrip(m: Mail, buffer: seq<Byte>)
    requires |m.payload| <= MAX_MAIL_SIZE && |buffer| == MAX_PACKET_SIZE
    ensures Unframe(m.sender, Patched(buffer, 0, Frame(m))) == Some(m)
  {
    var b := Patched(buffer, 0, Frame(m));
    assert b[0..4] == IntBytes(m.to) && b[4..8] == IntBytes(m.from) && b[8..12] == WordBytes(|m.payload|);
    IntRoundTrip(m.to);
    IntRoundTrip(m.from);
    WordRoundTrip(|m.payload|);
    assert b[12..12 + |m.payload|] == m.payload;
  }

  // ---------------------------------------------------------------- the step system

  /** A packet with its number among those of its sender. */
  datatype Packet = Packet(from: int, number: nat, data: seq<Byte>)

  datatype Letter = Letter(mail: Mail, number: nat)

  datatype Worker =
    | AtP                                    // waits for a message
    | Signalled                              // past P, about to receive
    | Holding(from: int, number: nat)        // has received into its buffer, about to deliver

  datatype State = State(
    sent: map<int, seq<Mail>>, queue: seq<Packet>, inbox: Option<Packet>, available: int, worker: Worker,
    buffer: seq<Byte>, boxes: seq<seq<Letter>>, taken: seq<seq<Letter>>, delivered: seq<Letter>)

  datatype Step = Send(mail: Mail, lost: bool) | Poll | WorkerP | WorkerReceive | WorkerDeliver | Take(box: int)

  function SentBy(s: State, from: int): seq<Mail> {
    if from in s.sent then s.sent[from] else []
  }

  predicate Enabled(s: State, step: Step) {
    match step
    case Send(m, _) => Sendable(m, |s.boxes|)
    case Poll => true
    case WorkerP => s.worker.AtP? && s.available > 0
    case WorkerReceive => s.worker.Signalled?
    case WorkerDeliver => s.worker.Holding?
    case Take(b) => 0 <= b < |s.boxes| && s.boxes[b] != []
  }

  /** The assertions of the worker hold, and there is a packet to receive. */
  predicate Safe(s: State, step: Step) {
    && |s.buffer| == MAX_PACKET_SIZE && |s.taken| == |s.boxes|
    && (step.WorkerReceive? ==> s.inbox.Some? && |s.inbox.value.data| <= MAX_PACKET_SIZE)
    && (step.WorkerDeliver? && s.worker.Holding? ==>
          var m := Unframe(s.worker.from, s.buffer); m.Some? && 0 <= m.value.to < |s.boxes|)
  }

  ghost function Next(s: State, step: Step): State
    requires Enabled(s, step) && Safe(s, step)
  {
    match step
    case Send(m, lost) =>
      var packet := Packet(m.sender, |SentBy(s, m.sender)|, Frame(m));
      s.(sent := s.sent[m.sender := SentBy(s, m.sender) + [m]], queue := if lost then s.queue else s.queue + [packet])
    case Poll =>
      if s.inbox.Some? || s.queue == [] then s
      else s.(inbox := Some(s.queue[0]), queue := s.queue[1..], available := s.available + 1)
    case WorkerP => s.(available := s.available - 1, worker := Signalled)
    case WorkerReceive =>
      var p := s.inbox.value;
      s.(inbox := None, buffer := Patched(s.buffer, 0, p.data), worker := Holding(p.from, p.number))
    case WorkerDeliver =>
      var letter := Letter(Unframe(s.worker.from, s.buffer).value, s.worker.number);
      var b := letter.mail.to;
      s.(worker := AtP, boxes := s.boxes[b := s.boxes[b] + [letter]], delivered := s.delivered + [letter])
    case Take(b) =>
      s.(boxes := s.boxes[b := s.boxes[b][1..]], taken := s.taken[b := s.taken[b] + [s.boxes[b][0]]])
  }

  // ---------------------------------------------------------------- the invariant

  /** The inbox is full exactly while a signal for it is pending or the worker is about to fetch it. */
  predicate InboxInv(s: State) {
    One(s.inbox.Some?) == s.available + One(s.worker.Signalled?) && s.available >= 0
  }

  predicate Known(s: State, from: int, number: nat) {
    from in s.sent && number < |s.sent[from]| && s.sent[from][number].sender == from
    && Sendable(s.sent[from][number], |s.boxes|)
  }

  predicate GoodPacket(s: State, p: Packet) {
    Known(s, p.from, p.number) && p.data == Frame(s.sent[p.from][p.number])
  }

  predicate GoodLetter(s: State, l: Letter) {
    Known(s, l.mail.sender, l.number) && l.mail == s.sent[l.mail.sender][l.number]
  }

  predicate WorkerInv(s: State) {
    && |s.buffer| == MAX_PACKET_SIZE
    && (s.worker.Holding? ==>
          && Known(s, s.worker.from, s.worker.number)
          && Unframe(s.worker.from, s.buffer) == Some(s.sent[s.worker.from][s.worker.number]))
  }

  ghost predicate Contents(s: State) {
    && (forall p :: p in s.queue ==> GoodPacket(s, p))
    && (s.inbox.Some? ==> GoodPacket(s, s.inbox.value))
    && WorkerInv(s)
    && (forall l :: l in s.delivered ==> GoodLetter(s, l))
  }

  datatype Tag = Tag(from: int, number: nat)

  function PacketTags(ps: seq<Packet>): (ts: seq<Tag>)
    ensures |ts| == |ps|
  {
    seq(|ps|, i requires 0 <= i < |ps| => Tag(ps[i].from, ps[i].number))
  }

  function LetterTags(ls: seq<Letter>): (ts: seq<Tag>)
    ensures |ts| == |ls|
  {
    seq(|ls|, i requires 0 <= i < |ls| => Tag(ls[i].mail.sender, ls[i].number))
  }

  /** Everything that was not lost, from the oldest to the newest. */
  function Pipeline(s: State): seq<Tag> {
    LetterTags(s.delivered)
    + (if s.worker.Holding? then [Tag(s.worker.from, s.worker.number)] else [])
    + (if s.inbox.Some? then [Tag(s.inbox.value.from, s.inbox.value.number)] else [])
    + PacketTags(s.queue)
  }

  /** Each sender's numbers go up. */
  ghost predicate Ordered(tags: seq<Tag>) {
    forall i, j :: 0 <= i < j < |tags| && tags[i].from == tags[j].from ==> tags[i].number < tags[j].number
  }

  /** The letters for one box, in order. */
  function ForBox(ls: seq<Letter>, b: int): seq<Letter> {
    if ls == [] then [] else
      var l := ls[|ls| - 1];
      ForBox(ls[..|ls| - 1], b) + (if l.mail.to == b then [l] else [])
  }

  ghost predicate BoxInv(s: State) {
    |s.taken| == |s.boxes| && forall b :: 0 <= b < |s.boxes| ==> s.taken[b] + s.boxes[b] == ForBox(s.delivered, b)
  }

  ghost predicate Inv(s: State) {
    InboxInv(s) && Contents(s) && Ordered(Pipeline(s)) && BoxInv(s)
    && (forall t :: t in Pipeline(s) ==> t.from in s.sent && t.number < |s.sent[t.from]|)
  }

  /** No assertion of the worker fails: the inbox is full when it looks, and the header is legal. */
  lemma InvIsSafe(s: State, step: Step)
    requires Inv(s) && Enabled(s, step)
    ensures Safe(s, step)
  {
  }

  // ---------------------------------------------------------------- each step keeps the invariant

  /** Only a packet that is sent and not lost enters the pipeline, behind all others, and none leaves it. */
  lemma PipelineAfter(s: State, step: Step)
    requires Contents(s) && Enabled(s, step) && Safe(s, step)
    ensures Pipeline(Next(s, step)) ==
              Pipeline(s) + (if step.Send? && !step.lost
                             then [Tag(step.mail.sender, |SentBy(s, step.mail.sender)|)] else [])
  {
    var s' := Next(s, step);
    match step
    case Send(m, lost) =>
      if !lost {
        assert PacketTags(s'.queue) == PacketTags(s.queue) + [Tag(m.sender, |SentBy(s, m.sender)|)];
      }
    case Poll =>
      if s.inbox.None? && s.queue != [] {
        assert PacketTags(s.queue) == [Tag(s.queue[0].from, s.queue[0].number)] + PacketTags(s'.queue);
      }
    case WorkerDeliver =>
      assert LetterTags(s'.delivered) == LetterTags(s.delivered) + [Tag(s.worker.from, s.worker.number)];
    case _ =>
  }

  lemma SendKeepsContents(s: State, m: Mail, lost: bool)
    requires Contents(s) && Enabled(s, Send(m, lost)) && Safe(s, Send(m, lost))
    ensures Contents(Next(s, Send(m, lost)))
  {
    var s' := Next(s, Send(m, lost));
    assert forall from, n: nat :: Known(s, from, n) ==> Known(s', from, n) && s'.sent[from][n] == s.sent[from][n];
  }

  lemma SendKeepsInv(s: State, m: Mail, lost: bool)
    requires Inv(s) && Enabled(s, Send(m, lost)) && Safe(s, Send(m, lost))
    ensures Inv(Next(s, Send(m, lost)))
  {
    SendKeepsContents(s, m, lost);
    PipelineAfter(s, Send(m, lost));
  }

  lemma PollKeepsContents(s: State)
    requires Contents(s) && Safe(s, Poll) && s.inbox.None? && s.queue != []
    ensures Contents(Next(s, Poll))
  {
    var s' := Next(s, Poll);
    assert s.queue[0] in s.queue;
    forall p | p in s'.queue
      ensures GoodPacket(s', p)
    {
      assert p in s.queue;
    }
    forall l | l in s'.delivered
      ensures GoodLetter(s', l)
    {
      assert GoodLetter(s, l);
    }
  }

  lemma PollKeepsInv(s: State)
    requires Inv(s) && Safe(s, Poll)
    ensures Inv(Next(s, Poll))
  {
    if s.inbox.None? && s.queue != [] {
      PollKeepsContents(s);
      PipelineAfter(s, Poll);
    }
  }

  lemma ReceiveKeepsInv(s: State)
    requires Inv(s) && Enabled(s, WorkerReceive) && Safe(s, WorkerReceive)
    ensures Inv(Next(s, WorkerReceive))
  {
    var p := s.inbox.value;
    FrameRoundTrip(s.sent[p.from][p.number], s.buffer);
    PipelineAfter(s, WorkerReceive);
  }

  lemma DeliverKeepsBoxes(s: State)
    requires BoxInv(s) && Enabled(s, WorkerDeliver) && Safe(s, WorkerDeliver)
    ensures BoxInv(Next(s, WorkerDeliver))
  {
    var s' := Next(s, WorkerDeliver);
    var letter := s'.delivered[|s.delivered|];
    assert s'.delivered[..|s.delivered|] == s.delivered;
    forall b | 0 <= b < |s.boxes|
      ensures s'.taken[b] + s'.boxes[b] == ForBox(s'.delivered, b)
    {
      assert s.taken[b] + (s.boxes[b] + [letter]) == (s.taken[b] + s.boxes[b]) + [letter];
    }
  }

  lemma DeliverKeepsContents(s: State)
    requires Contents(s) && Enabled(s, WorkerDeliver) && Safe(s, WorkerDeliver)
    ensures Contents(Next(s, WorkerDeliver))
  {
    var s' := Next(s, WorkerDeliver);
    forall p | p in s'.queue
      ensures GoodPacket(s', p)
    {
      assert GoodPacket(s, p);
    }
    forall l | l in s'.delivered
      ensures GoodLetter(s', l)
    {
      assert l in s.delivered ==> GoodLetter(s, l);
    }
  }

  lemma DeliverKeepsInv(s: State)
    requires Inv(s) && Enabled(s, WorkerDeliver) && Safe(s, WorkerDeliver)
    ensures Inv(Next(s, WorkerDeliver))
  {
    DeliverKeepsBoxes(s);
    DeliverKeepsContents(s);
    PipelineAfter(s, WorkerDeliver);
  }

  lemma TakeKeepsInv(s: State, b: int)
    requires Inv(s) && Enabled(s, Take(b)) && Safe(s, Take(b))
    ensures Inv(Next(s, Take(b)))
  {
    var s' := Next(s, Take(b));
    assert s'.taken[b] + s'.boxes[b] == s.taken[b] + s.boxes[b];
    PipelineAfter(s, Take(b));
  }

  lemma NextKeepsInv(s: State, step: Step)
    requires Inv(s) && Enabled(s, step)
    ensures Safe(s, step) && Inv(Next(s, step))
  {
    InvIsSafe(s, step);
    match step
    case Send(m, lost) => SendKeepsInv(s, m, lost);
    case Poll => PollKeepsInv(s);
    case WorkerP => PipelineAfter(s, WorkerP);
    case WorkerReceive => ReceiveKeepsInv(s);
    case WorkerDeliver => DeliverKeepsInv(s);
    case Take(b) => TakeKeepsInv(s, b);
  }

  // ---------------------------------------------------------------- whole runs

  function Initial(numBoxes: nat, garbage: seq<Byte>): State {
    State(map[], [], None, 0, AtP, garbage, seq(numBoxes, _ => []), seq(numBoxes, _ => []), [])
  }

  ghost predicate Run(states: seq<State>, steps: seq<Step>, numBoxes: nat, garbage: seq<Byte>) {
    && |states| == |steps| + 1 && |garbage| == MAX_PACKET_SIZE && states[0] == Initial(numBoxes, garbage)
    && forall n :: 0 <= n < |steps| ==>
         Enabled(states[n], steps[n]) && (Safe(states[n], steps[n]) ==> states[n + 1] == Next(states[n], steps[n]))
  }

  /** No assertion fails in any run, and the inbox is never overwritten before it was read. */
  lemma {:induction false} RunKeepsInv(states: seq<State>, steps: seq<Step>, numBoxes: nat, garbage: seq<Byte>, n: nat)
    requires Run(states, steps, numBoxes, garbage) && n < |states|
    ensures Inv(states[n]) && (n < |steps| ==> Safe(states[n], steps[n]))
  {
    if n > 0 {
      RunKeepsInv(states, steps, numBoxes, garbage, n - 1);
      NextKeepsInv(states[n - 1], steps[n - 1]);
    }
    if n < |steps| {
      InvIsSafe(states[n], steps[n]);
    }
  }

  lemma {:induction false} ForBoxMembers(ls: seq<Letter>, b: int)
    ensures forall l :: l in ForBox(ls, b) ==> l in ls && l.mail.to == b
  {
    if ls != [] {
      ForBoxMembers(ls[..|ls| - 1], b);
    }
  }

  lemma {:induction false} ForBoxOrdered(ls: seq<Letter>, b: int)
    requires Ordered(LetterTags(ls))
    ensures Ordered(LetterTags(ForBox(ls, b)))
  {
    if ls != [] {
      var n := |ls| - 1;
      var front, l := ls[..n], ls[n];
      assert LetterTags(ls)[..n] == LetterTags(front);
      ForBoxOrdered(front, b);
      ForBoxMembers(front, b);
      var kept := ForBox(front, b);
      forall i | 0 <= i < |kept| && kept[i].mail.sender == l.mail.sender
        ensures kept[i].number < l.number
      {
        assert kept[i] in front;
        var k :| 0 <= k < n && front[k] == kept[i];
        assert LetterTags(ls)[k] == Tag(l.mail.sender, kept[i].number);
        assert LetterTags(ls)[n] == Tag(l.mail.sender, l.number);
      }
      if l.mail.to == b {
        assert LetterTags(kept + [l]) == LetterTags(kept) + [Tag(l.mail.sender, l.number)];
      } else {
        assert kept + [] == kept;
      }
    }
  }

  /** What was taken out of a box is, sender by sender, an in-order subsequence of what that sender sent to that
      box, with identical headers and payload. */
  lemma TakenIsSubsequence(states: seq<State>, steps: seq<Step>, numBoxes: nat, garbage: seq<Byte>, n: nat, b: nat)
    requires Run(states, steps, numBoxes, garbage) && n < |states| && b < |states[n].boxes|
    ensures |states[n].taken| == |states[n].boxes|
    ensures
      var s, taken := states[n], states[n].taken[b];
      && (forall i :: 0 <= i < |taken| ==> GoodLetter(s, taken[i]) && taken[i].mail.to == b)
      && (forall i, j :: 0 <= i < j < |taken| && taken[i].mail.sender == taken[j].mail.sender ==>
            taken[i].number < taken[j].number)
  {
    RunKeepsInv(states, steps, numBoxes, garbage, n);
    var s := states[n];
    assert LetterTags(s.delivered) == Pipeline(s)[..|s.delivered|];
    ForBoxOrdered(s.delivered, b);
    ForBoxMembers(s.delivered, b);
    var all, taken := ForBox(s.delivered, b), s.taken[b];
    assert s.taken[b] + s.boxes[b] == all;
    forall i | 0 <= i < |taken|
      ensures taken[i] == all[i] && LetterTags(all)[i] == Tag(taken[i].mail.sender, taken[i].number)
      ensures GoodLetter(s, taken[i]) && taken[i].mail.to == b
    {
      assert all[i] == (s.taken[b] + s.boxes[b])[i];
      assert all[i] in all;
    }
  }

  // ---------------------------------------------------------------- what is not lost arrives

  /** The mail of a sender in the first n steps. */
  function SendsBy(steps: seq<Step>, n: nat, from: int): seq<Mail>
    requires n <= |steps|
  {
    if n == 0 then [] else
    var before := SendsBy(steps, n - 1, from);
    if steps[n - 1].Send? && steps[n - 1].mail.sender == from then before + [steps[n - 1].mail] else before
  }

  /** The mail of the first n steps that the network did not lose, each with its number among those of its sender. */
  function Surviving(steps: seq<Step>, n: nat): seq<Letter>
    requires n <= |steps|
  {
    if n == 0 then [] else
    var before := Surviving(steps, n - 1);
    if steps[n - 1].Send? && !steps[n - 1].lost
    then before + [Letter(steps[n - 1].mail, |SendsBy(steps, n - 1, steps[n - 1].mail.sender)|)]
    else before
  }

  lemma {:induction false} SurvivingNumbers(steps: seq<Step>, n: nat, i: nat)
    requires n <= |steps| && i < |Surviving(steps, n)|
    ensures
      var l := Surviving(steps, n)[i];
      l.number < |SendsBy(steps, n, l.mail.sender)| && SendsBy(steps, n, l.mail.sender)[l.number] == l.mail
  {
    if i < |Surviving(steps, n - 1)| {
      SurvivingNumbers(steps, n - 1, i);
    }
  }

  lemma SentAfter(s: State, step: Step, from: int)
    requires Enabled(s, step) && Safe(s, step)
    ensures SentBy(Next(s, step), from) ==
              if step.Send? && step.mail.sender == from then SentBy(s, from) + [step.mail] else SentBy(s, from)
  {
  }

  lemma {:induction false} SentFollowsSends(
      states: seq<State>, steps: seq<Step>, numBoxes: nat, garbage: seq<Byte>, n: nat, from: int)
    requires Run(states, steps, numBoxes, garbage) && n < |states|
    ensures SentBy(states[n], from) == SendsBy(steps, n, from)
  {
    if n > 0 {
      SentFollowsSends(states, steps, numBoxes, garbage, n - 1, from);
      RunKeepsInv(states, steps, numBoxes, garbage, n - 1);
      SentAfter(states[n - 1], steps[n - 1], from);
    }
  }

  /** What is under way or delivered follows from the sends alone. */
  lemma {:induction false} PipelineFollowsSends(
      states: seq<State>, steps: seq<Step>, numBoxes: nat, garbage: seq<Byte>, n: nat)
    requires Run(states, steps, numBoxes, garbage) && n < |states|
    ensures Pipeline(states[n]) == LetterTags(Surviving(steps, n))
  {
    if n > 0 {
      var s, step := states[n - 1], steps[n - 1];
      PipelineFollowsSends(states, steps, numBoxes, garbage, n - 1);
      RunKeepsInv(states, steps, numBoxes, garbage, n - 1);
      PipelineAfter(s, step);
      if step.Send? && !step.lost {
        SentFollowsSends(states, steps, numBoxes, garbage, n - 1, step.mail.sender);
        var before := Surviving(steps, n - 1);
        var l := Letter(step.mail, |SendsBy(steps, n - 1, step.mail.sender)|);
        assert LetterTags(before + [l]) == LetterTags(before) + [Tag(l.mail.sender, l.number)];
      }
    }
  }

  /** Letters are delivered in the order of the sends, leaving out exactly those the network lost. */
  lemma DeliveredIsPrefix(states: seq<State>, steps: seq<Step>, numBoxes: nat, garbage: seq<Byte>, n: nat)
    requires Run(states, steps, numBoxes, garbage) && n < |states|
    ensures states[n].delivered <= Surviving(steps, n)
  {
    RunKeepsInv(states, steps, numBoxes, garbage, n);
    PipelineFollowsSends(states, steps, numBoxes, garbage, n);
    var s, all := states[n], Surviving(steps, n);
    assert |Pipeline(s)| == |all|;
    forall i | 0 <= i < |s.delivered|
      ensures s.delivered[i] == all[i]
    {
      assert Pipeline(s)[i] == LetterTags(s.delivered)[i] == LetterTags(all)[i];
      assert GoodLetter(s, s.delivered[i]);
      SurvivingNumbers(steps, n, i);
      SentFollowsSends(states, steps, numBoxes, garbage, n, all[i].mail.sender);
    }
  }

  /** No poll brings anything in and the worker cannot move. */
  predicate Quiet(s: State) {
    && (s.inbox.Some? || s.queue == [])
    && !Enabled(s, WorkerP) && !Enabled(s, WorkerReceive) && !Enabled(s, WorkerDeliver)
  }

  /** Once the network and the worker have nothing left to do, every box has received exactly the mail sent to it that
      was not lost, in order. */
  lemma AllDelivered(states: seq<State>, steps: seq<Step>, numBoxes: nat, garbage: seq<Byte>, n: nat, b: nat)
    requires Run(states, steps, numBoxes, garbage) && n < |states| && b < |states[n].boxes| && Quiet(states[n])
    ensures |states[n].taken| == |states[n].boxes|
    ensures states[n].taken[b] + states[n].boxes[b] == ForBox(Surviving(steps, n), b)
  {
    RunKeepsInv(states, steps, numBoxes, garbage, n);
    PipelineFollowsSends(states, steps, numBoxes, garbage, n);
    DeliveredIsPrefix(states, steps, numBoxes, garbage, n);
    assert Pipeline(states[n]) == LetterTags(states[n].delivered);
    assert states[n].delivered == Surviving(steps, n);
  }
}
