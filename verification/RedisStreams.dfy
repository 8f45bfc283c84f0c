/**
The Redis Streams consumer (runtime/redis/redis.go) as a state machine: one untrimmed stream with
its consumer group, and any number of consumer processes, each running a read loop and a reclaimer
loop. A step is one command at the server or one decision of a loop; commands may fail, or succeed
with their reply lost, and a process may crash and restart between any two steps.
 */
module RedisStreams {
  import opened Strconv
  import opened Wrappers

  type Id = nat

  type Values = map<string, string>

  datatype Config = Config(maxDeliveries: int, deadLetter: bool, stream: string)

  // Where a loop is with the first entry of its batch.
  datatype Phase = Counting | Dispatching | Acking | DeadLettering | Dropping

  datatype Loop = Loop(batch: seq<Id>, phase: Phase)

  // What one reclaimer did with an entry since its process started.
  datatype Tally = Tally(counted: nat, redelivered: nat, dropped: nat, deadLetterFailed: nat, dropFailed: nat)

  const ZERO := Tally(0, 0, 0, 0, 0)

  // `attempts` is the reclaimer's counter; `tally` only records history.
  datatype Process = Process(
    reading: bool,
    reader: Loop,
    reclaimer: Loop,
    attempts: map<Id, nat>,
    tally: map<Id, Tally>)

  const STARTED := Process(true, Loop([], Dispatching), Loop([], Counting), map[], map[])

  datatype DeadCopy = DeadCopy(source: Id, values: Values)

  // `entries[id]` is the entry with that identifier; those below `delivered` have been read once.
  // `handled` and `claims` record history: the entries a handler returned nil for, and how often an
  // entry was claimed and counted by any reclaimer.
  datatype State = State(
    entries: seq<Values>,
    delivered: nat,
    pending: set<Id>,
    dead: seq<DeadCopy>,
    processes: seq<Process>,
    handled: set<Id>,
    claims: map<Id, nat>)

  datatype Which = Reader | Reclaimer

  // A command succeeds, fails, or succeeds without the caller getting to know.
  datatype Reply = Done | Failed | Lost

  datatype Step =
    | Publish(values: Values)
    | Read(p: nat, count: nat)
    | ReadLost(p: nat, count: nat)
    | Dispatch(p: nat, which: Which, ok: bool)
    | Ack(p: nat, which: Which, reply: Reply)
    | Claim(p: nat, ids: seq<Id>)
    | Count(p: nat)
    | DeadLetter(p: nat, reply: Reply)
    | Drop(p: nat, reply: Reply)
    | Restart(p: nat)

  function Get(m: map<Id, nat>, id: Id): nat {
    if id in m then m[id] else 0
  }

  function TallyOf(proc: Process, id: Id): Tally {
    if id in proc.tally then proc.tally[id] else ZERO
  }

  function LoopOf(proc: Process, which: Which): Loop {
    if which.Reader? then proc.reader else proc.reclaimer
  }

  function SetLoop(proc: Process, which: Which, loop: Loop): Process {
    if which.Reader? then proc.(reader := loop) else proc.(reclaimer := loop)
  }

  // How a loop starts on an entry.
  function Start(which: Which): Phase {
    if which.Reader? then Dispatching else Counting
  }

  function Next(loop: Loop, which: Which): Loop
    requires loop.batch != []
  {
    Loop(loop.batch[1..], Start(which))
  }

  function Ids(from: nat, count: nat): (ids: seq<Id>)
    ensures |ids| == count && forall i :: 0 <= i < count ==> ids[i] == from + i
  {
    seq(count, i requires 0 <= i => from + i)
  }

  // The fields XADD writes to the dead-letter stream.
  function DeadValues(cfg: Config, source: string, values: Values): Values {
    values["dlq_source_id" := source]["dlq_source_stream" := cfg.stream]
  }

  predicate Busy(loop: Loop, phase: Phase) {
    loop.batch != [] && loop.phase == phase
  }

  predicate Enabled(cfg: Config, s: State, step: Step) {
    match step
    case Publish(_) => true
    case Read(p, count) =>
      && p < |s.processes| && s.processes[p].reading && s.processes[p].reader.batch == []
      && s.delivered + count <= |s.entries|
    case ReadLost(p, count) =>
      && p < |s.processes| && s.processes[p].reading && s.processes[p].reader.batch == []
      && s.delivered + count <= |s.entries|
    case Dispatch(p, which, _) => p < |s.processes| && Busy(LoopOf(s.processes[p], which), Dispatching)
    case Ack(p, which, _) => p < |s.processes| && Busy(LoopOf(s.processes[p], which), Acking)
    case Claim(p, ids) =>
      && p < |s.processes| && cfg.maxDeliveries > 0 && s.processes[p].reclaimer.batch == []
      && (forall id :: id in ids ==> id in s.pending)
    case Count(p) => p < |s.processes| && Busy(s.processes[p].reclaimer, Counting)
    case DeadLetter(p, _) => p < |s.processes| && Busy(s.processes[p].reclaimer, DeadLettering)
    case Drop(p, _) => p < |s.processes| && Busy(s.processes[p].reclaimer, Dropping)
    case Restart(p) => p < |s.processes|
  }

  function WithProcess(s: State, p: nat, proc: Process): State
    requires p < |s.processes|
  {
    s.(processes := s.processes[p := proc])
  }

  function Remove(s: State, id: Id, reply: Reply): State {
    if reply.Failed? then s else s.(pending := s.pending - {id})
  }

  function Apply(cfg: Config, s: State, step: Step): State
    requires Enabled(cfg, s, step)
  {
    match step
    case Publish(values) => s.(entries := s.entries + [values])
    case Read(p, count) =>
      var ids := Ids(s.delivered, count);
      WithProcess(s, p, s.processes[p].(reader := Loop(ids, Dispatching)))
      .(delivered := s.delivered + count, pending := s.pending + set id | id in ids)
    case ReadLost(p, count) =>
      var ids := Ids(s.delivered, count);
      WithProcess(s, p, s.processes[p].(reading := false))
      .(delivered := s.delivered + count, pending := s.pending + set id | id in ids)
    case Dispatch(p, which, ok) =>
      var loop := LoopOf(s.processes[p], which);
      var loop' := if ok then loop.(phase := Acking) else Next(loop, which);
      WithProcess(s, p, SetLoop(s.processes[p], which, loop'))
      .(handled := if ok then s.handled + {loop.batch[0]} else s.handled)
    case Ack(p, which, reply) =>
      var loop := LoopOf(s.processes[p], which);
      Remove(WithProcess(s, p, SetLoop(s.processes[p], which, Next(loop, which))), loop.batch[0], reply)
    case Claim(p, ids) => WithProcess(s, p, s.processes[p].(reclaimer := Loop(ids, Counting)))
    case Count(p) =>
      var proc := s.processes[p];
      var id := proc.reclaimer.batch[0];
      var attempts := Get(proc.attempts, id) + 1;
      var tally := TallyOf(proc, id);
      var exhausted := attempts >= cfg.maxDeliveries;
      WithProcess(s, p, proc.(
        reclaimer := proc.reclaimer.(phase := if !exhausted then Dispatching
                                              else if cfg.deadLetter then DeadLettering else Dropping),
        attempts := proc.attempts[id := attempts],
        tally := proc.tally[id := tally.(counted := tally.counted + 1,
                                         redelivered := tally.redelivered + if exhausted then 0 else 1)]))
      .(claims := s.claims[id := Get(s.claims, id) + 1])
    case DeadLetter(p, reply) =>
      var proc := s.processes[p];
      var id := proc.reclaimer.batch[0];
      var tally := TallyOf(proc, id);
      var proc' := if reply.Done? then proc.(reclaimer := proc.reclaimer.(phase := Dropping))
                   else proc.(reclaimer := Next(proc.reclaimer, Reclaimer),
                              tally := proc.tally[id := tally.(deadLetterFailed := tally.deadLetterFailed + 1)]);
      var values := if id < |s.entries| then s.entries[id] else map[];
      WithProcess(s, p, proc')
      .(dead := if reply.Failed? then s.dead else s.dead + [DeadCopy(id, DeadValues(cfg, Itoa(id), values))])
    case Drop(p, reply) =>
      var proc := s.processes[p];
      var id := proc.reclaimer.batch[0];
      var tally := TallyOf(proc, id);
      Remove(WithProcess(s, p, proc.(
        reclaimer := Next(proc.reclaimer, Reclaimer),
        attempts := proc.attempts - {id},
        tally := proc.tally[id := tally.(dropped := tally.dropped + 1,
                                         dropFailed := tally.dropFailed + if reply.Failed? then 1 else 0)])), id, reply)
    case Restart(p) => WithProcess(s, p, STARTED)
  }

  ghost predicate Initial(s: State) {
    && s.entries == [] && s.delivered == 0 && s.pending == {} && s.dead == []
    && (forall p :: 0 <= p < |s.processes| ==> s.processes[p] == STARTED)
    && s.handled == {} && s.claims == map[]
  }

  // The states reached from s by a list of steps.
  ghost predicate Run(cfg: Config, s: State, steps: seq<Step>, t: State)
    decreases steps
  {
    if steps == [] then s == t
    else Enabled(cfg, s, steps[0]) && Run(cfg, Apply(cfg, s, steps[0]), steps[1..], t)
  }

  ghost predicate DeadLettered(s: State, id: Id) {
    exists d :: d in s.dead && d.source == id
  }

  // Why an entry may be gone.
  ghost predicate Justified(cfg: Config, s: State, id: Id) {
    || id in s.handled
    || (cfg.maxDeliveries > 0 && Get(s.claims, id) >= cfg.maxDeliveries && (cfg.deadLetter ==> DeadLettered(s, id)))
  }

  predicate Undelivered(s: State, id: Id) {
    s.delivered <= id < |s.entries|
  }

  predicate Settled(s: State, id: Id) {
    id < s.delivered && id !in s.pending
  }

  // The reclaimer of a process is about to remove an entry for good.
  predicate Exhausting(proc: Process, id: Id) {
    && proc.reclaimer.batch != [] && proc.reclaimer.batch[0] == id
    && proc.reclaimer.phase in {DeadLettering, Dropping}
  }

  ghost predicate ProcessOk(cfg: Config, s: State, proc: Process) {
    && (forall id :: id in proc.reader.batch || id in proc.reclaimer.batch ==> id < s.delivered)
    && proc.reader.phase in {Dispatching, Acking}
    && (Busy(proc.reader, Acking) ==> proc.reader.batch[0] in s.handled)
    && (Busy(proc.reclaimer, Acking) ==> proc.reclaimer.batch[0] in s.handled)
    && (proc.reclaimer.batch != [] ==> cfg.maxDeliveries > 0)
    && (forall id :: Exhausting(proc, id) ==> Get(proc.attempts, id) >= cfg.maxDeliveries)
    && (forall id :: Exhausting(proc, id) && proc.reclaimer.phase.Dropping? && cfg.deadLetter ==> DeadLettered(s, id))
    && (forall id :: Get(proc.attempts, id) <= Get(s.claims, id))
  }

  // What the counters of one reclaimer say about an entry.
  ghost predicate TallyOk(cfg: Config, s: State, proc: Process, id: Id) {
    var a, t := Get(proc.attempts, id), TallyOf(proc, id);
    && (t != ZERO ==> id < s.delivered && cfg.maxDeliveries > 0)
    && (a > 0 ==> t.counted > 0)
    && (cfg.maxDeliveries > 0 ==>
          && t.redelivered == Times(cfg.maxDeliveries - 1, t.dropped) + Min(a, cfg.maxDeliveries - 1)
          && (t.deadLetterFailed == 0 ==>
                && t.counted == Times(cfg.maxDeliveries, t.dropped) + a
                && (a >= cfg.maxDeliveries ==> a == cfg.maxDeliveries && Exhausting(proc, id))))
    && (t.dropped > t.dropFailed ==> id !in s.pending)
  }

  function Times(m: int, n: nat): int {
    m * n
  }

  function Min(a: int, b: int): int {
    if a < b then a else b
  }

  ghost predicate Invariant(cfg: Config, s: State) {
    && s.delivered <= |s.entries|
    && (forall id :: id in s.pending ==> id < s.delivered)
    && (forall id :: Settled(s, id) ==> Justified(cfg, s, id))
    && (forall d :: d in s.dead ==> d.source < s.delivered && d.values == DeadValues(cfg, Itoa(d.source), s.entries[d.source]))
    && (forall p :: 0 <= p < |s.processes| ==> ProcessOk(cfg, s, s.processes[p]))
    && (forall p, id: Id :: 0 <= p < |s.processes| ==> TallyOk(cfg, s, s.processes[p], id))
  }
}
