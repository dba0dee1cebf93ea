/**
 * The response queue shared by the packet task (one consumer, in take_packet) and the web server's
 * threads (any number of producers, in submit_response), as interleaved atomic steps.
 */
module ResponseQueue {
  import opened Bytes
  import opened Codec
  import Protocol
  import Registry

  // A queued channel copy: its id and the part it refers to.
  datatype Job = Job(id: Byte, part: nat)

  // A response as written: the count byte, the job, and the part's value when it was written.
  // `pushed` remembers how many submissions had been made by then.
  datatype Response = Response(count: Byte, job: Job, value: Value, pushed: nat)

  datatype Owner = Nobody | Consumer | Producer(thread: nat)

  // Where the request branch of take_packet stands.
  datatype ConsumerPc =
    | Idle
    | SawWork                // size() > 0 was true, lock not yet taken
    | Locked
    | Counted(count: nat)    // queue length written into the packet
    | Wrote(composed: Response) // id and value of the front written too, the front still queued
    | Popped(written: Response)
    | Unlocked(packet: Response)

  // Where a call of submit_response stands.
  datatype ProducerPc = Out | Called(job: Job) | Holding(work: Job) | Pushed

  datatype State = State(
    queue: seq<Job>,
    owner: Owner,
    consumer: ConsumerPc,
    producers: map<nat, ProducerPc>,
    parts: map<nat, Value>,
    submitted: seq<Job>,
    sent: seq<Response>,
    faulted: bool)

  datatype Step =
    | Test | Lock | Count | Write | Pop | Unlock | Transmit
    | Call(thread: nat, job: Job) | Acquire(thread: nat) | Push(thread: nat) | Release(thread: nat)
    | SetPart(part: nat, value: Value)

  function PcOf(s: State, t: nat): ProducerPc {
    if t in s.producers then s.producers[t] else Out
  }

  function ValueIn(s: State, part: nat): Value {
    if part in s.parts then s.parts[part] else Number(0)
  }

  predicate Enabled(s: State, step: Step) {
    match step
    case Test => s.consumer == Idle
    case Lock => s.consumer == SawWork && s.owner == Nobody
    case Count => s.consumer == Locked
    case Write => s.consumer.Counted?
    case Pop => s.consumer.Wrote?
    case Unlock => s.consumer.Popped?
    case Transmit => s.consumer.Unlocked?
    case Call(t, _) => PcOf(s, t) == Out
    case Acquire(t) => PcOf(s, t).Called? && s.owner == Nobody
    case Push(t) => PcOf(s, t).Holding?
    case Release(t) => PcOf(s, t) == Pushed
    case SetPart(_, _) => true
  }

  // front() or pop_front() of an empty queue is a fault.
  function Do(s: State, step: Step): State
    requires Enabled(s, step)
  {
    match step
    case Test => if s.queue == [] then s else s.(consumer := SawWork)
    case Lock => s.(consumer := Locked, owner := Consumer)
    case Count => s.(consumer := Counted(|s.queue|))
    case Write =>
      if s.queue == [] then s.(faulted := true)
      else
        var job := s.queue[0];
        s.(consumer := Wrote(Response(s.consumer.count % 256, job, ValueIn(s, job.part), |s.submitted|)))
    case Pop =>
      if s.queue == [] then s.(faulted := true)
      else s.(consumer := Popped(s.consumer.composed), queue := s.queue[1..])
    case Unlock => s.(consumer := Unlocked(s.consumer.written), owner := Nobody)
    case Transmit => s.(consumer := Idle, sent := s.sent + [s.consumer.packet])
    case Call(t, job) => s.(producers := s.producers[t := Called(job)])
    case Acquire(t) => s.(producers := s.producers[t := Holding(PcOf(s, t).job)], owner := Producer(t))
    case Push(t) =>
      var job := PcOf(s, t).work;
      s.(producers := s.producers[t := Pushed], queue := s.queue + [job], submitted := s.submitted + [job])
    case Release(t) => s.(producers := s.producers[t := Out], owner := Nobody)
    case SetPart(p, v) => s.(parts := s.parts[p := v])
  }

  const INITIAL := State([], Nobody, Idle, map[], map[], [], [], false)

  predicate Executable(s: State, steps: seq<Step>)
    decreases |steps|
  {
    steps == [] || (Enabled(s, steps[0]) && Executable(Do(s, steps[0]), steps[1..]))
  }

  function After(s: State, steps: seq<Step>): State
    requires Executable(s, steps)
    decreases |steps|
  {
    if steps == [] then s else After(Do(s, steps[0]), steps[1..])
  }

  // ----- the invariant

  // Responses taken off the queue: those sent, and one that may be under way.
  function Taken(s: State): seq<Response> {
    match s.consumer
    case Popped(r) => s.sent + [r]
    case Unlocked(r) => s.sent + [r]
    case _ => s.sent
  }

  // Responses composed: those taken, and one whose job is still at the front.
  function Composed(s: State): seq<Response> {
    Taken(s) + if s.consumer.Wrote? then [s.consumer.composed] else []
  }

  function Jobs(rs: seq<Response>): (jobs: seq<Job>)
    ensures |jobs| == |rs|
    ensures forall i | 0 <= i < |rs| :: jobs[i] == rs[i].job
  {
    seq(|rs|, i requires 0 <= i < |rs| => rs[i].job)
  }

  predicate InSection(pc: ConsumerPc) {
    pc.Locked? || pc.Counted? || pc.Wrote? || pc.Popped?
  }

  ghost predicate LockHeldRight(s: State) {
    && (s.owner == Consumer <==> InSection(s.consumer))
    && (forall t: nat :: (PcOf(s, t).Holding? || PcOf(s, t) == Pushed) <==> s.owner == Producer(t))
  }

  predicate WorkSeen(s: State) {
    && (s.consumer.SawWork? || s.consumer.Locked? ==> s.queue != [])
    && (s.consumer.Counted? ==> s.queue != [] && s.consumer.count == |s.queue|)
    && (s.consumer.Wrote? ==>
          var r := s.consumer.composed;
          s.queue != [] && r.job == s.queue[0] && r.count == |s.queue| % 256 && r.pushed == |s.submitted|)
    && !s.faulted
  }

  // The k-th response was written when pushed - k jobs were waiting.
  predicate CountsRight(rs: seq<Response>, submissions: nat) {
    forall k | 0 <= k < |rs| :: k < rs[k].pushed <= submissions && rs[k].count == (rs[k].pushed - k) % 256
  }

  ghost predicate Inv(s: State) {
    && LockHeldRight(s) && WorkSeen(s)
    && Jobs(Taken(s)) + s.queue == s.submitted
    && CountsRight(Taken(s), |s.submitted|)
  }

  lemma LockPreserved(s: State, step: Step)
    requires LockHeldRight(s) && Enabled(s, step)
    ensures LockHeldRight(Do(s, step))
  {
  }

  // The response to write now.
  function Writing(s: State): Response
    requires s.consumer.Counted? && s.queue != []
  {
    Response(s.consumer.count % 256, s.queue[0], ValueIn(s, s.queue[0].part), |s.submitted|)
  }

  // What a step adds to the responses composed and to the submissions.
  lemma StepAdds(s: State, step: Step)
    requires Inv(s) && Enabled(s, step)
    ensures step == Write ==>
              s.consumer.Counted? && s.queue != [] && Composed(Do(s, step)) == Composed(s) + [Writing(s)]
    ensures step != Write ==> Composed(Do(s, step)) == Composed(s)
    ensures step.Push? ==> PcOf(s, step.thread).Holding?
    ensures Do(s, step).submitted == s.submitted + if step.Push? then [PcOf(s, step.thread).work] else []
  {
    hide LockHeldRight;
  }

  lemma PopPreserves(s: State)
    requires Inv(s) && s.consumer.Wrote?
    ensures Inv(Do(s, Pop))
  {
    LockPreserved(s, Pop);
    hide LockHeldRight;
    var s' := Do(s, Pop);
    var k := |s.sent|;
    assert Jobs(Taken(s')) == Jobs(s.sent) + [s.queue[0]];
    assert |s.submitted| == k + |s.queue|;
  }

  lemma StepPreserves(s: State, step: Step)
    requires Inv(s) && Enabled(s, step)
    ensures Inv(Do(s, step))
  {
    if step == Pop {
      PopPreserves(s);
    } else {
      LockPreserved(s, step);
      assert step.Push? ==> s.owner == Producer(step.thread);
      hide LockHeldRight;
      var s' := Do(s, step);
      assert Taken(s') == Taken(s);
      if step.Push? {
        var job := PcOf(s, step.thread).work;
        assert Jobs(Taken(s)) + (s.queue + [job]) == Jobs(Taken(s)) + s.queue + [job];
      }
    }
  }

  lemma {:induction false} RunPreserves(s: State, steps: seq<Step>)
    requires Inv(s) && Executable(s, steps)
    ensures Inv(After(s, steps))
    decreases |steps|
  {
    hide Inv, Enabled, Do;
    if steps == [] {
    } else {
      StepPreserves(s, steps[0]);
      RunPreserves(Do(s, steps[0]), steps[1..]);
    }
  }

  // ----- the main results

  // In every interleaving: the pop after the unlocked test never finds the queue empty, what was
  // sent, is under way or still waits is exactly what was submitted, in order, and every count byte
  // is the number of jobs that waited, modulo 256.
  lemma QueueIsSafe(steps: seq<Step>)
    requires Executable(INITIAL, steps)
    ensures var s := After(INITIAL, steps);
            && !s.faulted
            && Jobs(Taken(s)) + s.queue == s.submitted
            && CountsRight(s.sent, |s.submitted|)
            && (s.consumer == Idle && s.queue == [] ==> Jobs(s.sent) == s.submitted)
  {
    RunPreserves(INITIAL, steps);
    var s := After(INITIAL, steps);
    hide After, Executable, LockHeldRight;
    assert forall k | 0 <= k < |s.sent| :: Taken(s)[k] == s.sent[k];
  }

  // The lock keeps the two critical sections apart.
  lemma MutualExclusion(steps: seq<Step>, t: nat, u: nat)
    requires Executable(INITIAL, steps)
    ensures var s := After(INITIAL, steps);
            var inside := PcOf(s, t).Holding? || PcOf(s, t) == Pushed;
            && (inside ==> !InSection(s.consumer))
            && (inside && (PcOf(s, u).Holding? || PcOf(s, u) == Pushed) ==> t == u)
  {
    RunPreserves(INITIAL, steps);
  }

  // ----- which value is sent

  function Writes(steps: seq<Step>): nat {
    if steps == [] then 0 else (if steps[0] == Write then 1 else 0) + Writes(steps[1..])
  }

  function Pushes(steps: seq<Step>): nat {
    if steps == [] then 0 else (if steps[0].Push? then 1 else 0) + Pushes(steps[1..])
  }

  // The value a part was last set to in these steps.
  function LastSet(steps: seq<Step>, part: nat): Option<Value> {
    if steps == [] then None
    else
      var later := LastSet(steps[1..], part);
      if later.Some? then later
      else if steps[0].SetPart? && steps[0].part == part then Some(steps[0].value)
      else None
  }

  lemma {:induction false} RunSplit(s: State, a: seq<Step>, b: seq<Step>)
    requires Executable(s, a + b)
    ensures Executable(s, a) && Executable(After(s, a), b) && After(s, a + b) == After(After(s, a), b)
    decreases |a|
  {
    hide Enabled, Do;
    if a == [] {
      assert a + b == b;
    } else {
      assert (a + b)[0] == a[0] && (a + b)[1..] == a[1..] + b;
      RunSplit(Do(s, a[0]), a[1..], b);
    }
  }

  lemma {:induction false} CountsSplit(a: seq<Step>, b: seq<Step>)
    ensures Writes(a + b) == Writes(a) + Writes(b) && Pushes(a + b) == Pushes(a) + Pushes(b)
  {
    if a == [] {
      assert a + b == b;
    } else {
      assert (a + b)[0] == a[0] && (a + b)[1..] == a[1..] + b;
      CountsSplit(a[1..], b);
    }
  }

  // Responses and submissions only ever gain, one at each write and one at each push.
  lemma {:induction false} RunAdds(s: State, steps: seq<Step>)
    requires Inv(s) && Executable(s, steps)
    ensures var s' := After(s, steps);
            && Composed(s) <= Composed(s') && |Composed(s')| == |Composed(s)| + Writes(steps)
            && s.submitted <= s'.submitted && |s'.submitted| == |s.submitted| + Pushes(steps)
    decreases |steps|
  {
    hide Inv, Enabled, Do, Composed;
    if steps == [] {
    } else {
      StepPreserves(s, steps[0]);
      StepAdds(s, steps[0]);
      RunAdds(Do(s, steps[0]), steps[1..]);
    }
  }

  lemma InitialInv()
    ensures Inv(INITIAL) && Composed(INITIAL) == [] && INITIAL.submitted == []
  {
  }

  // The state before step k of a run, and the run from there on.
  lemma Before(steps: seq<Step>, k: nat)
    requires Executable(INITIAL, steps) && k < |steps|
    ensures Executable(INITIAL, steps[..k])
    ensures var s := After(INITIAL, steps[..k]);
            && Inv(s) && Enabled(s, steps[k]) && Inv(Do(s, steps[k]))
            && Executable(Do(s, steps[k]), steps[k + 1..])
            && After(INITIAL, steps) == After(Do(s, steps[k]), steps[k + 1..])
            && |Composed(s)| == Writes(steps[..k]) && |s.submitted| == Pushes(steps[..k])
  {
    hide Inv, Enabled, Do, Composed;
    assert steps[..k] + steps[k..] == steps && steps[k..][1..] == steps[k + 1..];
    InitialInv();
    RunSplit(INITIAL, steps[..k], steps[k..]);
    RunPreserves(INITIAL, steps[..k]);
    RunAdds(INITIAL, steps[..k]);
    StepPreserves(After(INITIAL, steps[..k]), steps[k]);
  }

  // In every run, each response carries the value its part held when it was written, whatever is set
  // afterwards: the n-th response is that of the n-th write, and what is sent are the first of them.
  lemma ValueIsThatAtWrite(steps: seq<Step>, k: nat)
    requires Executable(INITIAL, steps) && k < |steps| && steps[k] == Write
    ensures Executable(INITIAL, steps[..k])
    ensures |Composed(After(INITIAL, steps))| == Writes(steps) && Writes(steps[..k]) < Writes(steps)
    ensures After(INITIAL, steps).sent <= Composed(After(INITIAL, steps))
    ensures var s, r := After(INITIAL, steps[..k]), Composed(After(INITIAL, steps))[Writes(steps[..k])];
            && s.queue != [] && r.job == s.queue[0]
            && r.value == ValueIn(s, r.job.part) && r.count == |s.queue| % 256
  {
    Before(steps, k);
    var s := After(INITIAL, steps[..k]);
    StepAdds(s, Write);
    SentIsComposed(After(INITIAL, steps));
    hide Executable, After, LockHeldRight, Composed;
    InitialInv();
    RunAdds(INITIAL, steps);
    RunAdds(Do(s, steps[k]), steps[k + 1..]);
  }

  lemma SentIsComposed(s: State)
    ensures s.sent <= Taken(s) <= Composed(s)
  {
  }

  // The same for submissions: the n-th is that of the n-th push.
  lemma SubmittedAtPush(steps: seq<Step>, j: nat)
    requires Executable(INITIAL, steps) && j < |steps| && steps[j].Push?
    ensures Executable(INITIAL, steps[..j])
    ensures var s, all := After(INITIAL, steps[..j]), After(INITIAL, steps).submitted;
            && PcOf(s, steps[j].thread).Holding?
            && Pushes(steps[..j]) < |all| && all[Pushes(steps[..j])] == PcOf(s, steps[j].thread).work
  {
    hide Inv, Executable, After, Enabled, Do, Composed, PcOf;
    Before(steps, j);
    var s := After(INITIAL, steps[..j]);
    StepAdds(s, steps[j]);
    RunAdds(Do(s, steps[j]), steps[j + 1..]);
  }

  lemma {:induction false} ValueAfter(s: State, steps: seq<Step>, part: nat)
    requires Executable(s, steps)
    ensures ValueIn(After(s, steps), part) ==
            if LastSet(steps, part).Some? then LastSet(steps, part).value else ValueIn(s, part)
    decreases |steps|
  {
    if steps == [] {
    } else {
      ValueAfter(Do(s, steps[0]), steps[1..], part);
    }
  }

  lemma WriteHasWork(s: State)
    requires Inv(s) && Enabled(s, Write)
    ensures |Composed(s)| < |s.submitted|
  {
    hide LockHeldRight;
    assert |Jobs(Taken(s)) + s.queue| == |s.submitted|;
  }

  // A response is written for what was pushed before.
  lemma PushComesFirst(steps: seq<Step>, j: nat, k: nat)
    requires Executable(INITIAL, steps) && j < |steps| && k < |steps| && steps[j].Push? && steps[k] == Write
    requires Pushes(steps[..j]) == Writes(steps[..k])
    ensures j < k
  {
    hide Inv, Enabled, Do, Composed, After, Executable, Pushes, Writes;
    if k < j {
      Before(steps, k);
      WriteHasWork(After(INITIAL, steps[..k]));
      assert steps[..k] + steps[k..j] == steps[..j];
      CountsSplit(steps[..k], steps[k..j]);
    }
  }

  // A response carries the value its part held when it was submitted if and only if the part was not
  // set between the push and the write, or the last time was to that same value. The push at step j and
  // the write at step k belong together when as many pushes come before the one as writes before the
  // other.
  lemma ValueIsThatAtPushIff(steps: seq<Step>, j: nat, k: nat)
    requires Executable(INITIAL, steps) && j < |steps| && k < |steps| && steps[j].Push? && steps[k] == Write
    requires Pushes(steps[..j]) == Writes(steps[..k])
    ensures j < k && Executable(INITIAL, steps[..j]) && Writes(steps[..k]) < |Composed(After(INITIAL, steps))|
    ensures var s, r := After(INITIAL, steps[..j]), Composed(After(INITIAL, steps))[Writes(steps[..k])];
            var last := LastSet(steps[j..k], r.job.part);
            && PcOf(s, steps[j].thread).Holding? && r.job == PcOf(s, steps[j].thread).work
            && (r.value == ValueIn(s, r.job.part) <==> last == None || last == Some(ValueIn(s, r.job.part)))
  {
    hide Inv, Enabled, Do, LockHeldRight, Executable, After, Composed, ValueIn, LastSet, Writes, Pushes;
    PushComesFirst(steps, j, k);
    ValueIsThatAtWrite(steps, k);
    SubmittedAtPush(steps, j);
    ComposedFromSubmitted(steps);
    var r := Composed(After(INITIAL, steps))[Writes(steps[..k])];
    assert steps[..j] + steps[j..k] == steps[..k];
    RunSplit(INITIAL, steps[..j], steps[j..k]);
    ValueAfter(After(INITIAL, steps[..j]), steps[j..k], r.job.part);
  }

  lemma ComposedFromSubmitted(steps: seq<Step>)
    requires Executable(INITIAL, steps)
    ensures var s := After(INITIAL, steps);
            |Composed(s)| <= |s.submitted| && forall i | 0 <= i < |Composed(s)| :: Composed(s)[i].job == s.submitted[i]
  {
    hide Executable, After, LockHeldRight, Taken;
    InitialInv();
    RunPreserves(INITIAL, steps);
    var s := After(INITIAL, steps);
    assert forall i | 0 <= i < |Taken(s)| :: (Jobs(Taken(s)) + s.queue)[i] == Jobs(Taken(s))[i];
    assert s.queue != [] ==> (Jobs(Taken(s)) + s.queue)[|Taken(s)|] == s.queue[0];
  }

  // ----- undisturbed turns, as take_packet and submit_response make them

  lemma RunStep(s: State, step: Step, rest: seq<Step>)
    requires Enabled(s, step) && Executable(Do(s, step), rest)
    ensures Executable(s, [step] + rest) && After(s, [step] + rest) == After(Do(s, step), rest)
  {
  }

  lemma RunNothing(s: State)
    ensures Executable(s, []) && After(s, []) == s
  {
  }

  // The steps of one request with a response waiting, and of one submission.
  function RequestSteps(): seq<Step> {
    [Test] + ([Lock] + ([Count] + ([Write] + ([Pop] + ([Unlock] + ([Transmit] + []))))))
  }

  function SubmitSteps(thread: nat, job: Job): seq<Step> {
    [Call(thread, job)] + ([Acquire(thread)] + ([Push(thread)] + ([Release(thread)] + [])))
  }

  // The response of a request made now.
  function NextResponse(s: State): Response
    requires s.queue != []
  {
    Response(|s.queue| % 256, s.queue[0], ValueIn(s, s.queue[0].part), |s.submitted|)
  }

  function AfterRequest(s: State): State
    requires s.queue != []
  {
    s.(queue := s.queue[1..], sent := s.sent + [NextResponse(s)])
  }

  lemma RequestRuns(s: State)
    requires s.consumer == Idle && s.owner == Nobody && s.queue != []
    ensures Executable(s, RequestSteps()) && After(s, RequestSteps()) == AfterRequest(s)
  {
    hide Executable, After;
    var s1 := Do(s, Test);
    var s2 := Do(s1, Lock);
    var s3 := Do(s2, Count);
    var s4 := Do(s3, Write);
    var s5 := Do(s4, Pop);
    var s6 := Do(s5, Unlock);
    RunNothing(Do(s6, Transmit));
    RunStep(s6, Transmit, []);
    RunStep(s5, Unlock, [Transmit] + []);
    RunStep(s4, Pop, [Unlock] + ([Transmit] + []));
    RunStep(s3, Write, [Pop] + ([Unlock] + ([Transmit] + [])));
    RunStep(s2, Count, [Write] + ([Pop] + ([Unlock] + ([Transmit] + []))));
    RunStep(s1, Lock, [Count] + ([Write] + ([Pop] + ([Unlock] + ([Transmit] + [])))));
    RunStep(s, Test, [Lock] + ([Count] + ([Write] + ([Pop] + ([Unlock] + ([Transmit] + []))))));
  }

  lemma SubmitRuns(s: State, thread: nat, job: Job)
    requires PcOf(s, thread) == Out && s.owner == Nobody
    ensures Executable(s, SubmitSteps(thread, job))
    ensures var s' := After(s, SubmitSteps(thread, job));
            && s'.queue == s.queue + [job] && s'.submitted == s.submitted + [job]
            && s'.owner == Nobody && s'.consumer == s.consumer && s'.parts == s.parts && s'.sent == s.sent
            && forall u: nat :: PcOf(s', u) == PcOf(s, u)
  {
    hide Executable, After;
    var s1 := Do(s, Call(thread, job));
    var s2 := Do(s1, Acquire(thread));
    var s3 := Do(s2, Push(thread));
    RunNothing(Do(s3, Release(thread)));
    RunStep(s3, Release(thread), []);
    RunStep(s2, Push(thread), [Release(thread)] + []);
    RunStep(s1, Acquire(thread), [Push(thread)] + ([Release(thread)] + []));
    RunStep(s, Call(thread, job), [Acquire(thread)] + ([Push(thread)] + ([Release(thread)] + [])));
  }

  // A waiting job as the listener sees it, given the schemas of the parts.
  function ReplyOf(job: Job, parts: map<nat, Value>, schemas: nat -> Schema): Registry.Reply {
    Registry.Reply(job.id, schemas(job.part), if job.part in parts then parts[job.part] else Number(0))
  }

  function Replies(queue: seq<Job>, parts: map<nat, Value>, schemas: nat -> Schema): (rs: seq<Registry.Reply>)
    ensures |rs| == |queue| && forall i | 0 <= i < |queue| :: rs[i] == ReplyOf(queue[i], parts, schemas)
  {
    seq(|queue|, i requires 0 <= i < |queue| => ReplyOf(queue[i], parts, schemas))
  }

  function RepliesOf(s: State, schemas: nat -> Schema): seq<Registry.Reply> {
    Replies(s.queue, s.parts, schemas)
  }

  function PacketFor(r: Response, schemas: nat -> Schema): seq<Byte> {
    Protocol.ResponsePacket(r.count, r.job.id, schemas(r.job.part), r.value)
  }

  lemma RepliesFollow(queue: seq<Job>, job: Job, parts: map<nat, Value>, schemas: nat -> Schema)
    ensures Replies(queue + [job], parts, schemas) == Replies(queue, parts, schemas) + [ReplyOf(job, parts, schemas)]
    ensures queue != [] ==> Replies(queue[1..], parts, schemas) == Replies(queue, parts, schemas)[1..]
  {
    hide ReplyOf;
  }

  // A request that is not interleaved with anything does to the queue what take_packet's own step does,
  // and puts the same packet on the line.
  lemma RequestIsTakeOther(s: State, schemas: nat -> Schema, l: Registry.Listener)
    requires s.consumer == Idle && s.owner == Nobody && s.queue != []
    ensures Executable(s, RequestSteps()) && After(s, RequestSteps()) == AfterRequest(s)
    ensures Registry.TakeOther(l, RepliesOf(s, schemas), Protocol.Request) ==
            Registry.Outcome(l, [Registry.SendPacket(PacketFor(NextResponse(s), schemas))], true)
    ensures RepliesOf(AfterRequest(s), schemas) == RepliesOf(s, schemas)[1..]
  {
    hide Executable, After, RequestSteps, Protocol.ResponsePacket;
    RequestRuns(s);
    var job := s.queue[0];
    RepliesFollow(s.queue, job, s.parts, schemas);
    Protocol.CountCut(|s.queue|, job.id, schemas(job.part), ValueIn(s, job.part));
  }

  // A submission that is not interleaved with anything queues one more reply at the end.
  lemma SubmitIsAppend(s: State, thread: nat, job: Job, schemas: nat -> Schema)
    requires PcOf(s, thread) == Out && s.owner == Nobody
    ensures Executable(s, SubmitSteps(thread, job))
    ensures RepliesOf(After(s, SubmitSteps(thread, job)), schemas) ==
            RepliesOf(s, schemas) + [ReplyOf(job, s.parts, schemas)]
  {
    hide Executable, After, SubmitSteps, PcOf;
    SubmitRuns(s, thread, job);
    RepliesFollow(s.queue, job, s.parts, schemas);
  }

  // A queued response is a reference: submitted with one value, sent with another.
  lemma ResponseIsNotASnapshot()
    ensures var job := Job(0, 7);
            var steps := SubmitSteps(1, job) + ([SetPart(7, Number(5))] + RequestSteps());
            && Executable(INITIAL, steps)
            && ValueIn(INITIAL, 7) == Number(0)
            && After(INITIAL, steps).sent == [Response(1, job, Number(5), 1)]
  {
    hide Executable, After, SubmitSteps, RequestSteps;
    var job := Job(0, 7);
    SubmitRuns(INITIAL, 1, job);
    var s := After(INITIAL, SubmitSteps(1, job));
    var s' := Do(s, SetPart(7, Number(5)));
    RequestRuns(s');
    RunStep(s, SetPart(7, Number(5)), RequestSteps());
    RunJoin(INITIAL, SubmitSteps(1, job), [SetPart(7, Number(5))] + RequestSteps());
  }

  lemma {:induction false} RunJoin(s: State, a: seq<Step>, b: seq<Step>)
    requires Executable(s, a) && Executable(After(s, a), b)
    ensures Executable(s, a + b) && After(s, a + b) == After(After(s, a), b)
    decreases |a|
  {
    hide Enabled, Do;
    if a == [] {
      assert a + b == b;
    } else {
      assert (a + b)[0] == a[0] && (a + b)[1..] == a[1..] + b;
      RunJoin(Do(s, a[0]), a[1..], b);
    }
  }
}
