/**
What holds in every run of the Redis Streams consumer, whatever the interleaving, the failed
commands and the restarts.
 */
module RedisProofs {
  import opened Wrappers
  import opened RedisStreams
  import opened Strconv

  // Nothing recorded is forgotten and nothing settled comes back.
  ghost predicate Grows(s: State, t: State) {
    && s.entries <= t.entries && s.delivered <= t.delivered && s.handled <= t.handled
    && (forall id :: Get(s.claims, id) <= Get(t.claims, id))
    && (forall id :: DeadLettered(s, id) ==> DeadLettered(t, id))
    && (forall id: Id :: id < s.delivered && id !in s.pending ==> id !in t.pending)
    && |s.processes| == |t.processes|
  }

  lemma StepGrows(cfg: Config, s: State, step: Step)
    requires Enabled(cfg, s, step)
    ensures Grows(s, Apply(cfg, s, step))
  {
    var t := Apply(cfg, s, step);
    assert forall d :: d in s.dead ==> d in t.dead;
  }

  lemma {:induction false} RunGrows(cfg: Config, s: State, steps: seq<Step>, t: State)
    requires Run(cfg, s, steps, t)
    ensures Grows(s, t)
    decreases steps
  {
    if steps != [] {
      StepGrows(cfg, s, steps[0]);
      RunGrows(cfg, Apply(cfg, s, steps[0]), steps[1..], t);
    }
  }

  lemma JustifiedGrows(cfg: Config, s: State, t: State, id: Id)
    requires Grows(s, t) && Justified(cfg, s, id)
    ensures Justified(cfg, t, id)
  {
  }

  lemma ProcessOkGrows(cfg: Config, s: State, t: State, proc: Process)
    requires Grows(s, t) && ProcessOk(cfg, s, proc)
    ensures ProcessOk(cfg, t, proc)
  {
    forall id
      ensures Get(proc.attempts, id) <= Get(t.claims, id)
    {
      assert Get(proc.attempts, id) <= Get(s.claims, id);
    }
  }

  lemma TallyOkGrows(cfg: Config, s: State, t: State, proc: Process, id: Id)
    requires Grows(s, t) && TallyOk(cfg, s, proc, id)
    ensures TallyOk(cfg, t, proc, id)
  {
  }

  // What is left to show about a step: the process that moved, and the entry it removed if any.
  lemma Moved(cfg: Config, s: State, t: State, p: nat)
    requires Invariant(cfg, s) && Grows(s, t)
    requires t.delivered <= |t.entries| && forall id :: id in t.pending ==> id < t.delivered
    requires forall q :: 0 <= q < |t.processes| && q != p ==> t.processes[q] == s.processes[q]
    requires p < |t.processes| ==> ProcessOk(cfg, t, t.processes[p])
    requires p < |t.processes| ==> forall id: Id :: TallyOk(cfg, t, t.processes[p], id)
    requires forall id :: Settled(t, id) && !Settled(s, id) ==> Justified(cfg, t, id)
    requires forall d :: d in t.dead && d !in s.dead ==>
      d.source < t.delivered && d.values == DeadValues(cfg, Itoa(d.source), t.entries[d.source])
    ensures Invariant(cfg, t)
  {
    forall id | Settled(t, id)
      ensures Justified(cfg, t, id)
    {
      if Settled(s, id) { JustifiedGrows(cfg, s, t, id); }
    }
    forall q | 0 <= q < |t.processes|
      ensures ProcessOk(cfg, t, t.processes[q])
    {
      if q != p { ProcessOkGrows(cfg, s, t, t.processes[q]); }
    }
    forall q, id: Id | 0 <= q < |t.processes|
      ensures TallyOk(cfg, t, t.processes[q], id)
    {
      if q != p { TallyOkGrows(cfg, s, t, t.processes[q], id); }
    }
  }

  lemma StepKeepsInvariant(cfg: Config, s: State, step: Step)
    requires Invariant(cfg, s) && Enabled(cfg, s, step)
    ensures Invariant(cfg, Apply(cfg, s, step))
  {
    match step
    case Publish(values) => PublishKeeps(cfg, s, values);
    case Read(p, count) => ReadKeeps(cfg, s, step);
    case ReadLost(p, count) => ReadKeeps(cfg, s, step);
    case Dispatch(p, which, ok) => DispatchKeeps(cfg, s, p, which, ok);
    case Ack(p, which, reply) => AckKeeps(cfg, s, p, which, reply);
    case Claim(p, ids) => ClaimKeeps(cfg, s, p, ids);
    case Count(p) => CountKeeps(cfg, s, p);
    case DeadLetter(p, reply) => DeadLetterKeeps(cfg, s, p, reply);
    case Drop(p, reply) => DropKeeps(cfg, s, p, reply);
    case Restart(p) => RestartKeeps(cfg, s, p);
  }

  lemma PublishKeeps(cfg: Config, s: State, values: Values)
    requires Invariant(cfg, s)
    ensures Invariant(cfg, Apply(cfg, s, Publish(values)))
  {
    var t := Apply(cfg, s, Publish(values));
    StepGrows(cfg, s, Publish(values));
    Moved(cfg, s, t, |t.processes|);
  }

  // The process of t at p differs from the one in s at most in its loops: its counters stand still.
  lemma SameCounters(cfg: Config, s: State, t: State, p: nat)
    requires Invariant(cfg, s) && Grows(s, t) && p < |t.processes|
    requires t.processes[p].attempts == s.processes[p].attempts && t.processes[p].tally == s.processes[p].tally
    requires t.processes[p].reclaimer == s.processes[p].reclaimer ||
             (forall id: Id :: !Exhausting(s.processes[p], id))
    ensures forall id: Id :: TallyOk(cfg, t, t.processes[p], id)
    ensures forall id: Id :: Get(t.processes[p].attempts, id) <= Get(t.claims, id)
  {
    forall id: Id
      ensures TallyOk(cfg, t, t.processes[p], id)
    {
      assert TallyOk(cfg, s, s.processes[p], id);
      TallyOkGrows(cfg, s, t, s.processes[p], id);
    }
    ProcessOkGrows(cfg, s, t, s.processes[p]);
  }

  lemma ReadKeeps(cfg: Config, s: State, step: Step)
    requires Invariant(cfg, s) && Enabled(cfg, s, step) && (step.Read? || step.ReadLost?)
    ensures Invariant(cfg, Apply(cfg, s, step))
  {
    var t, p := Apply(cfg, s, step), step.p;
    StepGrows(cfg, s, step);
    SameCounters(cfg, s, t, p);
    ProcessOkGrows(cfg, s, t, s.processes[p]);
    forall id: Id | s.delivered <= id < t.delivered
      ensures id in t.pending
    {
      assert Ids(s.delivered, step.count)[id - s.delivered] == id;
    }
    Moved(cfg, s, t, p);
  }

  lemma DispatchKeeps(cfg: Config, s: State, p: nat, which: Which, ok: bool)
    requires Invariant(cfg, s) && Enabled(cfg, s, Dispatch(p, which, ok))
    ensures Invariant(cfg, Apply(cfg, s, Dispatch(p, which, ok)))
  {
    var t := Apply(cfg, s, Dispatch(p, which, ok));
    StepGrows(cfg, s, Dispatch(p, which, ok));
    SameCounters(cfg, s, t, p);
    ProcessOkGrows(cfg, s, t, s.processes[p]);
    hide TallyOk;
    BatchShrinks(LoopOf(s.processes[p], which).batch);
    assert ProcessOk(cfg, t, t.processes[p]);
    hide ProcessOk;
    Moved(cfg, s, t, p);
  }

  lemma BatchShrinks(batch: seq<Id>)
    requires batch != []
    ensures batch[0] in batch && forall id :: id in batch[1..] ==> id in batch
  {
  }

  lemma AckKeeps(cfg: Config, s: State, p: nat, which: Which, reply: Reply)
    requires Invariant(cfg, s) && Enabled(cfg, s, Ack(p, which, reply))
    ensures Invariant(cfg, Apply(cfg, s, Ack(p, which, reply)))
  {
    var t, head := Apply(cfg, s, Ack(p, which, reply)), LoopOf(s.processes[p], which).batch[0];
    StepGrows(cfg, s, Ack(p, which, reply));
    SameCounters(cfg, s, t, p);
    ProcessOkGrows(cfg, s, t, s.processes[p]);
    hide TallyOk;
    BatchShrinks(LoopOf(s.processes[p], which).batch);
    assert ProcessOk(cfg, t, t.processes[p]);
    assert head in t.handled;
    hide ProcessOk;
    Moved(cfg, s, t, p);
  }

  lemma ClaimKeeps(cfg: Config, s: State, p: nat, ids: seq<Id>)
    requires Invariant(cfg, s) && Enabled(cfg, s, Claim(p, ids))
    ensures Invariant(cfg, Apply(cfg, s, Claim(p, ids)))
  {
    var t := Apply(cfg, s, Claim(p, ids));
    StepGrows(cfg, s, Claim(p, ids));
    SameCounters(cfg, s, t, p);
    ProcessOkGrows(cfg, s, t, s.processes[p]);
    hide TallyOk;
    assert ProcessOk(cfg, t, t.processes[p]);
    hide ProcessOk;
    Moved(cfg, s, t, p);
  }

  lemma CountKeeps(cfg: Config, s: State, p: nat)
    requires Invariant(cfg, s) && Enabled(cfg, s, Count(p))
    ensures Invariant(cfg, Apply(cfg, s, Count(p)))
  {
    var t, proc := Apply(cfg, s, Count(p)), s.processes[p];
    StepGrows(cfg, s, Count(p));
    CountTally(cfg, s, p);
    CountProcess(cfg, s, p);
    hide TallyOk, ProcessOk;
    Moved(cfg, s, t, p);
  }

  lemma CountTally(cfg: Config, s: State, p: nat)
    requires Invariant(cfg, s) && Enabled(cfg, s, Count(p))
    ensures var t := Apply(cfg, s, Count(p)); forall id: Id :: TallyOk(cfg, t, t.processes[p], id)
  {
    var t, proc := Apply(cfg, s, Count(p)), s.processes[p];
    HeadIsDelivered(cfg, s, proc);
    forall id: Id
      ensures TallyOk(cfg, t, t.processes[p], id)
    {
      assert TallyOk(cfg, s, proc, id);
    }
  }

  lemma CountProcess(cfg: Config, s: State, p: nat)
    requires Invariant(cfg, s) && Enabled(cfg, s, Count(p))
    ensures var t := Apply(cfg, s, Count(p)); ProcessOk(cfg, t, t.processes[p])
  {
    var t := Apply(cfg, s, Count(p));
    hide TallyOk;
    StepGrows(cfg, s, Count(p));
    ProcessOkGrows(cfg, s, t, s.processes[p]);
  }

  lemma HeadIsDelivered(cfg: Config, s: State, proc: Process)
    requires ProcessOk(cfg, s, proc) && proc.reclaimer.batch != []
    ensures proc.reclaimer.batch[0] < s.delivered
    ensures forall id :: id in Next(proc.reclaimer, Reclaimer).batch ==> id < s.delivered
  {
    var batch := proc.reclaimer.batch;
    assert batch[0] in batch && forall id :: id in batch[1..] ==> id in batch;
  }

  lemma DeadLetterKeeps(cfg: Config, s: State, p: nat, reply: Reply)
    requires Invariant(cfg, s) && Enabled(cfg, s, DeadLetter(p, reply))
    ensures Invariant(cfg, Apply(cfg, s, DeadLetter(p, reply)))
  {
    var t, proc := Apply(cfg, s, DeadLetter(p, reply)), s.processes[p];
    var head := proc.reclaimer.batch[0];
    StepGrows(cfg, s, DeadLetter(p, reply));
    ProcessOkGrows(cfg, s, t, proc);
    HeadIsDelivered(cfg, s, proc);
    assert !reply.Failed? ==> DeadLettered(t, head) by {
      if !reply.Failed? { assert t.dead[|s.dead|].source == head; }
    }
    forall id: Id
      ensures TallyOk(cfg, t, t.processes[p], id)
    {
      DeadLetterTally(cfg, s, t, proc, t.processes[p], reply, id);
    }
    assert ProcessOk(cfg, t, t.processes[p]);
    hide ProcessOk, TallyOk;
    Moved(cfg, s, t, p);
  }

  lemma DeadLetterTally(cfg: Config, s: State, t: State, proc: Process, proc': Process, reply: Reply, id: Id)
    requires TallyOk(cfg, s, proc, id) && t.delivered == s.delivered && t.pending == s.pending
    requires Busy(proc.reclaimer, DeadLettering)
    requires proc'.attempts == proc.attempts
    requires if reply.Done?
             then proc'.tally == proc.tally && proc'.reclaimer == proc.reclaimer.(phase := Dropping)
             else proc'.tally == proc.tally[proc.reclaimer.batch[0] := TallyOf(proc, proc.reclaimer.batch[0]).(
                    deadLetterFailed := TallyOf(proc, proc.reclaimer.batch[0]).deadLetterFailed + 1)]
    requires proc.reclaimer.batch[0] < s.delivered && cfg.maxDeliveries > 0
    ensures TallyOk(cfg, t, proc', id)
  {
  }

  lemma DropKeeps(cfg: Config, s: State, p: nat, reply: Reply)
    requires Invariant(cfg, s) && Enabled(cfg, s, Drop(p, reply))
    ensures Invariant(cfg, Apply(cfg, s, Drop(p, reply)))
  {
    var t, proc := Apply(cfg, s, Drop(p, reply)), s.processes[p];
    var head := proc.reclaimer.batch[0];
    StepGrows(cfg, s, Drop(p, reply));
    ProcessOkGrows(cfg, s, t, proc);
    HeadIsDelivered(cfg, s, proc);
    assert Exhausting(proc, head);
    forall id: Id
      ensures TallyOk(cfg, t, t.processes[p], id)
    {
      DropTally(cfg, s, t, proc, t.processes[p], reply, id);
    }
    assert Justified(cfg, t, head);
    assert ProcessOk(cfg, t, t.processes[p]);
    hide ProcessOk, TallyOk;
    Moved(cfg, s, t, p);
  }

  lemma DropTally(cfg: Config, s: State, t: State, proc: Process, proc': Process, reply: Reply, id: Id)
    requires TallyOk(cfg, s, proc, id) && t.delivered == s.delivered
    requires Busy(proc.reclaimer, Dropping)
    requires var head := proc.reclaimer.batch[0];
             && t.pending == (if reply.Failed? then s.pending else s.pending - {head})
             && head < s.delivered && Get(proc.attempts, head) >= cfg.maxDeliveries > 0
             && proc'.attempts == proc.attempts - {head}
             && proc'.tally == proc.tally[head := TallyOf(proc, head).(
                  dropped := TallyOf(proc, head).dropped + 1,
                  dropFailed := TallyOf(proc, head).dropFailed + if reply.Failed? then 1 else 0)]
    requires proc'.reclaimer == Next(proc.reclaimer, Reclaimer)
    ensures TallyOk(cfg, t, proc', id)
  {
    TimesNext(cfg.maxDeliveries, TallyOf(proc, id).dropped);
    TimesNext(cfg.maxDeliveries - 1, TallyOf(proc, id).dropped);
    hide Times;
  }

  lemma TimesNext(m: int, n: nat)
    ensures Times(m, n + 1) == Times(m, n) + m
    ensures Times(m, 0) == 0
  {
  }

  lemma RestartKeeps(cfg: Config, s: State, p: nat)
    requires Invariant(cfg, s) && Enabled(cfg, s, Restart(p))
    ensures Invariant(cfg, Apply(cfg, s, Restart(p)))
  {
    var t := Apply(cfg, s, Restart(p));
    StepGrows(cfg, s, Restart(p));
    Moved(cfg, s, t, p);
  }

  lemma {:induction false} RunKeepsInvariant(cfg: Config, s: State, steps: seq<Step>, t: State)
    requires Invariant(cfg, s) && Run(cfg, s, steps, t)
    ensures Invariant(cfg, t)
    decreases steps
  {
    if steps != [] {
      StepKeepsInvariant(cfg, s, steps[0]);
      RunKeepsInvariant(cfg, Apply(cfg, s, steps[0]), steps[1..], t);
    }
  }

  lemma InitialInvariant(cfg: Config, s: State)
    requires Initial(s)
    ensures Invariant(cfg, s)
  {
    TimesNext(cfg.maxDeliveries - 1, 0);
    TimesNext(cfg.maxDeliveries, 0);
  }

  // Main theorem, safety: in every reachable state each published entry is undelivered, pending or
  // settled, and it is settled only for a reason.
  lemma NothingIsLost(cfg: Config, s: State, steps: seq<Step>, t: State, id: Id)
    requires Initial(s) && Run(cfg, s, steps, t) && id < |t.entries|
    ensures Undelivered(t, id) || id in t.pending || Settled(t, id)
    ensures !(Undelivered(t, id) && id in t.pending) && !(Undelivered(t, id) && Settled(t, id))
    ensures Settled(t, id) ==>
      || id in t.handled
      || (&& cfg.maxDeliveries > 0 && Get(t.claims, id) >= cfg.maxDeliveries
          && (cfg.deadLetter ==> exists d :: d in t.dead && d.source == id
                                   && d.values == DeadValues(cfg, Itoa(id), t.entries[id])))
  {
    InitialInvariant(cfg, s);
    RunKeepsInvariant(cfg, s, steps, t);
    hide ProcessOk, TallyOk;
    if Settled(t, id) {
      assert Justified(cfg, t, id);
      if id !in t.handled && cfg.deadLetter {
        var d :| d in t.dead && d.source == id;
      }
    }
  }

  // A settled entry stays settled, and with it the reason.
  lemma SettledForGood(cfg: Config, s: State, steps: seq<Step>, t: State, id: Id)
    requires Run(cfg, s, steps, t) && Settled(s, id)
    ensures Settled(t, id)
    ensures id < |s.entries| ==> id < |t.entries| && t.entries[id] == s.entries[id]
  {
    RunGrows(cfg, s, steps, t);
  }

  // Main theorem, bounded retries: since its process started, a reclaimer handed an entry to the
  // handler at most (MaxDeliveries - 1) times, and as often again after each forced acknowledgement.
  lemma RedeliveriesAreBounded(cfg: Config, s: State, steps: seq<Step>, t: State, p: nat, id: Id)
    requires Initial(s) && Run(cfg, s, steps, t) && p < |t.processes|
    ensures var tally := TallyOf(t.processes[p], id);
            cfg.maxDeliveries > 0 ==> tally.redelivered <= (cfg.maxDeliveries - 1) * (1 + tally.dropped)
    ensures cfg.maxDeliveries <= 0 ==> TallyOf(t.processes[p], id) == ZERO
  {
    InitialInvariant(cfg, s);
    RunKeepsInvariant(cfg, s, steps, t);
    assert TallyOk(cfg, t, t.processes[p], id);
    TimesNext(cfg.maxDeliveries - 1, TallyOf(t.processes[p], id).dropped);
  }

  // Main theorem, retries end: once a reclaimer has counted MaxDeliveries claims of an entry without
  // a failed XADD or forced XACK, and is not just about to remove it, the entry is settled.
  lemma RetriesEnd(cfg: Config, s: State, steps: seq<Step>, t: State, p: nat, id: Id)
    requires Initial(s) && Run(cfg, s, steps, t) && p < |t.processes|
    requires cfg.maxDeliveries > 0 && TallyOf(t.processes[p], id).counted >= cfg.maxDeliveries
    requires TallyOf(t.processes[p], id).deadLetterFailed == TallyOf(t.processes[p], id).dropFailed == 0
    requires !Exhausting(t.processes[p], id)
    ensures Settled(t, id)
  {
    InitialInvariant(cfg, s);
    RunKeepsInvariant(cfg, s, steps, t);
    assert TallyOk(cfg, t, t.processes[p], id);
    if TallyOf(t.processes[p], id).dropped == 0 { TimesNext(cfg.maxDeliveries, 0); }
  }
}
