/**
The code that drives the Redis state machine: the body of the reclaimer loop with the generated
dispatch, and the stream fields a message is written to and read from.
 */
module RedisLoops {
  import opened Wrappers
  import opened RedisStreams
  import opened Strconv

  // ----- Messages as stream fields -----

  datatype Outgoing = Outgoing(key: string, contentType: string, headers: map<string, string>, body: string)

  const PAYLOAD := "payload"
  const CONTENT_TYPE := "content_type"
  const KEY := "key"
  const HEADER := "h."

  predicate IsHeader(field: string) {
    HEADER <= field
  }

  function NameOf(field: string): string {
    if |field| < 2 then "" else field[2..]
  }

  function HeaderField(name: string): (field: string)
    ensures IsHeader(field) && NameOf(field) == name
  {
    HEADER + name
  }

  function HeaderFields(headers: map<string, string>): Values {
    map name | name in headers :: HeaderField(name) := headers[name]
  }

  function Fields(out: Outgoing): Values {
    map[PAYLOAD := out.body, CONTENT_TYPE := out.contentType]
    + (if out.key == "" then map[] else map[KEY := out.key])
    + HeaderFields(out.headers)
  }

  // streamValues.
  method StreamValues(out: Outgoing) returns (values: Values)
    ensures values == Fields(out)
  {
    hide HeaderField, HeaderFields;
    values := map[PAYLOAD := out.body, CONTENT_TYPE := out.contentType];
    if out.key != "" {
      values := values[KEY := out.key];
    }
    ghost var fixed := values;
    var todo := out.headers.Keys;
    NoHeaders();
    ghost var done: map<string, string> := map[];
    while todo != {}
      invariant todo <= out.headers.Keys
      invariant done.Keys == out.headers.Keys - todo
      invariant forall k :: k in done ==> done[k] == out.headers[k]
      invariant values == fixed + HeaderFields(done)
      decreases todo
    {
      var k :| k in todo;
      OneMoreHeader(done, k, out.headers[k]);
      values := values[HeaderField(k) := out.headers[k]];
      todo, done := todo - {k}, done[k := out.headers[k]];
    }
    assert done == out.headers;
  }

  lemma NoHeaders()
    ensures HeaderFields(map[]) == map[]
  {
  }

  lemma OneMoreHeader(headers: map<string, string>, k: string, v: string)
    ensures HeaderFields(headers[k := v]) == HeaderFields(headers)[HeaderField(k) := v]
  {
    hide HeaderField, NameOf, IsHeader;
  }

  // The fields a message is written to, one by one.
  lemma FieldsAre(out: Outgoing)
    ensures Fields(out).Keys == {"payload", "content_type"} + (if out.key == "" then {} else {"key"}) + HeaderNamed(out.headers.Keys)
    ensures Fields(out)["payload"] == out.body && Fields(out)["content_type"] == out.contentType
    ensures out.key != "" ==> Fields(out)["key"] == out.key
    ensures forall name :: name in out.headers ==> "h." + name in Fields(out) && Fields(out)["h." + name] == out.headers[name]
  {
    NotHeaders();
    HeaderFieldsAre(out.headers);
    var headers := HeaderFields(out.headers);
    assert PAYLOAD !in headers && CONTENT_TYPE !in headers && KEY !in headers;
    assert |PAYLOAD| == 7 && |CONTENT_TYPE| == 12 && |KEY| == 3;
    hide NameOf, IsHeader, HeaderField, HeaderFields, HeaderNamed;
    Written(PAYLOAD, CONTENT_TYPE, KEY, out, headers);
  }

  function HeaderNamed(names: set<string>): set<string> {
    set name | name in names :: "h." + name
  }

  lemma Written(payload: string, contentType: string, key: string, out: Outgoing, headers: Values)
    requires payload != contentType && payload != key && contentType != key
    requires payload !in headers && contentType !in headers && key !in headers
    ensures var values := map[payload := out.body, contentType := out.contentType] + (if out.key == "" then map[] else map[key := out.key]) + headers;
            && values.Keys == {payload, contentType} + (if out.key == "" then {} else {key}) + headers.Keys
            && values[payload] == out.body && values[contentType] == out.contentType
            && (out.key != "" ==> values[key] == out.key)
            && forall field :: field in headers ==> values[field] == headers[field]
  {
  }

  lemma HeaderFieldsAre(headers: map<string, string>)
    ensures HeaderFields(headers).Keys == HeaderNamed(headers.Keys)
    ensures forall name :: name in headers ==> "h." + name in HeaderFields(headers) && HeaderFields(headers)["h." + name] == headers[name]
    ensures forall field :: field in HeaderFields(headers) ==> IsHeader(field)
  {
    assert forall name :: HeaderField(name) == "h." + name;
    hide NameOf, IsHeader, HeaderField;
  }

  // A dead letter has two more fields, and no other differs.
  lemma DeadFieldsAre(cfg: Config, source: string, values: Values)
    ensures var dead := DeadValues(cfg, source, values);
            && dead.Keys == values.Keys + {"dlq_source_id", "dlq_source_stream"}
            && dead["dlq_source_id"] == source && dead["dlq_source_stream"] == cfg.stream
            && forall field :: field in values && field !in {"dlq_source_id", "dlq_source_stream"} ==> dead[field] == values[field]
  {
  }

  function Text(values: Values, field: string): string {
    if field in values then values[field] else ""
  }

  function Header(values: Values, name: string): string {
    Text(values, HeaderField(name))
  }

  function HeaderNames(values: Values): set<string> {
    set field | field in values && IsHeader(field) :: NameOf(field)
  }

  // A consumer reads back exactly what was published.
  lemma PublishedIsConsumed(out: Outgoing)
    ensures var values := Fields(out);
            && Text(values, PAYLOAD) == out.body
            && Text(values, CONTENT_TYPE) == out.contentType
            && Text(values, KEY) == out.key
            && HeaderNames(values) == out.headers.Keys
            && forall name :: name in out.headers ==> Header(values, name) == out.headers[name]
  {
    var values, fields := Fields(out), HeaderFields(out.headers);
    HeaderFieldsRead(out.headers);
    NotHeaders();
    hide HeaderField, NameOf, IsHeader, HeaderFields;
    assert forall field :: IsHeader(field) ==> Text(values, field) == Text(fields, field);
    assert HeaderNames(values) == HeaderNames(fields);
  }

  lemma HeaderFieldsRead(headers: map<string, string>)
    ensures var fields := HeaderFields(headers);
            && (forall field :: field in fields ==> IsHeader(field))
            && HeaderNames(fields) == headers.Keys
            && forall name :: name in headers ==> Header(fields, name) == headers[name]
  {
    hide HeaderField, NameOf, IsHeader;
    var fields := HeaderFields(headers);
    forall name | name in headers
      ensures name in HeaderNames(fields)
    {
      assert HeaderField(name) in fields;
    }
  }

  lemma NotHeaders()
    ensures !IsHeader(PAYLOAD) && !IsHeader(CONTENT_TYPE) && !IsHeader(KEY)
    ensures !IsHeader("dlq_source_id") && !IsHeader("dlq_source_stream")
  {
    assert PAYLOAD[0] == 'p' && CONTENT_TYPE[0] == 'c' && KEY[0] == 'k' && HEADER[0] == 'h';
    assert "dlq_source_id"[0] == 'd' && "dlq_source_stream"[0] == 'd';
  }

  // A dead letter is the same message.
  lemma DeadLetterIsSameMessage(cfg: Config, source: string, values: Values)
    ensures var dead := DeadValues(cfg, source, values);
            && Text(dead, PAYLOAD) == Text(values, PAYLOAD)
            && Text(dead, CONTENT_TYPE) == Text(values, CONTENT_TYPE)
            && Text(dead, KEY) == Text(values, KEY)
            && HeaderNames(dead) == HeaderNames(values)
            && forall name :: Header(dead, name) == Header(values, name)
  {
    NotHeaders();
    hide HeaderField, NameOf, IsHeader;
  }

  // ----- The loops among the other loops -----

  datatype Decoded = Message | Skipped | Malformed

  datatype Handled = NoError | NotDispatched | Failure

  // How the environment answers while one entry is processed.
  datatype Answer = Answer(decoded: Decoded, handled: Handled, ack: Reply, add: Reply, drop: Reply)

  // An entry as XREADGROUP and XAUTOCLAIM return it.
  datatype XMessage = XMessage(id: Id, values: Values)

  // A step of a loop, with the entry it was at.
  datatype Deed = Deed(id: Option<Id>, step: Step)

  // Whether the handler returned nil for a decoded message: only then does dispatch acknowledge.
  predicate HandlerOk(a: Answer) {
    a.decoded.Message? && a.handled.NoError?
  }

  // The deeds of a loop for an entry that is dispatched,
  function HandleDeeds(p: nat, which: Which, id: Id, a: Answer): seq<Deed> {
    [Deed(Some(id), Dispatch(p, which, HandlerOk(a)))] + if HandlerOk(a) then [Deed(Some(id), Ack(p, which, a.ack))] else []
  }

  // for one that has now been claimed and counted `attempts` times,
  function EntryDeeds(cfg: Config, p: nat, id: Id, attempts: nat, a: Answer): seq<Deed> {
    [Deed(Some(id), Count(p))] +
    if attempts < cfg.maxDeliveries then HandleDeeds(p, Reclaimer, id, a)
    else if cfg.deadLetter then
      [Deed(Some(id), DeadLetter(p, a.add))] + if a.add.Done? then [Deed(Some(id), Drop(p, a.drop))] else []
    else [Deed(Some(id), Drop(p, a.drop))]
  }

  function AttemptsAfter(cfg: Config, attempts: map<Id, nat>, id: Id, a: Answer): map<Id, nat> {
    var n := Get(attempts, id) + 1;
    if n < cfg.maxDeliveries || (cfg.deadLetter && !a.add.Done?) then attempts[id := n] else attempts - {id}
  }

  // and for whole batches.
  function ReadDeeds(p: nat, messages: seq<XMessage>, answers: seq<Answer>): seq<Deed>
    requires |messages| == |answers|
  {
    if messages == [] then []
    else HandleDeeds(p, Reader, messages[0].id, answers[0]) + ReadDeeds(p, messages[1..], answers[1..])
  }

  function BatchDeeds(cfg: Config, p: nat, attempts: map<Id, nat>, messages: seq<XMessage>, answers: seq<Answer>): seq<Deed>
    requires |messages| == |answers|
    decreases messages
  {
    if messages == [] then []
    else EntryDeeds(cfg, p, messages[0].id, Get(attempts, messages[0].id) + 1, answers[0]) +
         BatchDeeds(cfg, p, AttemptsAfter(cfg, attempts, messages[0].id, answers[0]), messages[1..], answers[1..])
  }

  function IdsOf(messages: seq<XMessage>): (ids: seq<Id>)
    ensures |ids| == |messages| && forall i :: 0 <= i < |ids| ==> ids[i] == messages[i].id
  {
    seq(|messages|, i requires 0 <= i < |messages| => messages[i].id)
  }

  // The loop that makes a step.
  function Maker(step: Step): Option<(nat, Which)> {
    match step
    case Publish(_) => None
    case Read(p, _) => Some((p, Reader))
    case ReadLost(p, _) => Some((p, Reader))
    case Dispatch(p, which, _) => Some((p, which))
    case Ack(p, which, _) => Some((p, which))
    case Claim(p, _) => Some((p, Reclaimer))
    case Count(p) => Some((p, Reclaimer))
    case DeadLetter(p, _) => Some((p, Reclaimer))
    case Drop(p, _) => Some((p, Reclaimer))
    case Restart(_) => None
  }

  // What may happen while a loop of p goes on: anything that is not its own step, and no crash of p.
  predicate Foreign(step: Step, p: nat, which: Which) {
    Maker(step) != Some((p, which)) && step != Restart(p)
  }

  // The entry a loop is at.
  function Head(s: State, p: nat, which: Which): Option<Id> {
    if p < |s.processes| && LoopOf(s.processes[p], which).batch != [] then Some(LoopOf(s.processes[p], which).batch[0]) else None
  }

  // The steps of one loop among those of all.
  function Deeds(cfg: Config, s: State, steps: seq<Step>, p: nat, which: Which): seq<Deed>
    decreases steps
  {
    if steps == [] || !Enabled(cfg, s, steps[0]) then []
    else (if Maker(steps[0]) == Some((p, which)) then [Deed(Head(s, p, which), steps[0])] else []) +
         Deeds(cfg, Apply(cfg, s, steps[0]), steps[1..], p, which)
  }

  // The loop is where it was, and no entry is gone.
  predicate Unmoved(s: State, t: State, p: nat, which: Which) {
    && p < |s.processes| == |t.processes| && s.entries <= t.entries
    && LoopOf(t.processes[p], which) == LoopOf(s.processes[p], which)
    && (which.Reclaimer? ==> t.processes[p].attempts == s.processes[p].attempts)
  }

  lemma OneForeignStep(cfg: Config, s: State, step: Step, p: nat, which: Which)
    requires Enabled(cfg, s, step) && p < |s.processes| && Foreign(step, p, which)
    ensures Unmoved(s, Apply(cfg, s, step), p, which)
  {
    hide DeadValues, Itoa, TallyOf;
  }

  // Whatever the other loops do, a loop stays where it is.
  lemma {:induction false} OthersLeaveLoop(cfg: Config, s: State, steps: seq<Step>, t: State, p: nat, which: Which)
    requires Run(cfg, s, steps, t) && p < |s.processes| && forall step :: step in steps ==> Foreign(step, p, which)
    ensures Unmoved(s, t, p, which) && Deeds(cfg, s, steps, p, which) == []
    decreases steps
  {
    hide Apply, Enabled;
    if steps != [] {
      assert steps[0] in steps && forall step :: step in steps[1..] ==> step in steps;
      OneForeignStep(cfg, s, steps[0], p, which);
      OthersLeaveLoop(cfg, Apply(cfg, s, steps[0]), steps[1..], t, p, which);
    }
  }

  lemma {:induction false} DeedsConcat(cfg: Config, s: State, a: seq<Step>, t: State, b: seq<Step>, p: nat, which: Which)
    requires Run(cfg, s, a, t)
    ensures Deeds(cfg, s, a + b, p, which) == Deeds(cfg, s, a, p, which) + Deeds(cfg, t, b, p, which)
    decreases a
  {
    if a == [] {
      assert a + b == b;
    } else {
      assert (a + b)[0] == a[0] && (a + b)[1..] == a[1..] + b;
      var next := Apply(cfg, s, a[0]);
      DeedsConcat(cfg, next, a[1..], t, b, p, which);
      hide Maker, Apply, Enabled, Head;
      Regroup(if Maker(a[0]) == Some((p, which)) then [Deed(Head(s, p, which), a[0])] else [],
              Deeds(cfg, next, a[1..], p, which), Deeds(cfg, t, b, p, which));
    }
  }

  // An entry is gone from the pending list only by what some loop did while it was at that entry.
  lemma {:induction false} GoneByDeed(cfg: Config, s: State, steps: seq<Step>, t: State, id: Id)
    returns (p: nat, which: Which, d: Deed)
    requires Run(cfg, s, steps, t) && id in s.pending && id !in t.pending
    ensures d in Deeds(cfg, s, steps, p, which) && d.id == Some(id)
    ensures (d.step.Ack? || d.step.Drop?) && d.step.reply != Failed
    decreases steps
  {
    var next := Apply(cfg, s, steps[0]);
    if id in next.pending {
      p, which, d := GoneByDeed(cfg, next, steps[1..], t, id);
    } else {
      p, which := StepRemoves(cfg, s, steps[0], id);
      d := Deed(Some(id), steps[0]);
    }
  }

  lemma StepRemoves(cfg: Config, s: State, step: Step, id: Id) returns (p: nat, which: Which)
    requires Enabled(cfg, s, step) && id in s.pending && id !in Apply(cfg, s, step).pending
    ensures Maker(step) == Some((p, which)) && Head(s, p, which) == Some(id)
    ensures (step.Ack? || step.Drop?) && step.reply != Failed
  {
    p := step.p;
    which := if step.Ack? then step.which else Reclaimer;
    hide DeadValues, Itoa, TallyOf;
  }

  // And it counts as handled only by a dispatch whose handler returned nil.
  lemma {:induction false} HandledByDeed(cfg: Config, s: State, steps: seq<Step>, t: State, id: Id) returns (p: nat, which: Which)
    requires Run(cfg, s, steps, t) && id !in s.handled && id in t.handled
    ensures Deed(Some(id), Dispatch(p, which, true)) in Deeds(cfg, s, steps, p, which)
    decreases steps
  {
    var next := Apply(cfg, s, steps[0]);
    if id !in next.handled {
      p, which := HandledByDeed(cfg, next, steps[1..], t, id);
    } else {
      hide DeadValues, Itoa, TallyOf;
      p, which := steps[0].p, steps[0].which;
    }
  }

  lemma RunNothing(cfg: Config, s: State)
    ensures Run(cfg, s, [], s)
  {
  }

  lemma {:induction false} RunConcat(cfg: Config, s: State, a: seq<Step>, t: State, b: seq<Step>, u: State)
    requires Run(cfg, s, a, t) && Run(cfg, t, b, u)
    ensures Run(cfg, s, a + b, u)
    decreases a
  {
    if a == [] {
      assert a + b == b;
    } else {
      assert (a + b)[1..] == a[1..] + b;
      RunConcat(cfg, Apply(cfg, s, a[0]), a[1..], t, b, u);
    }
  }

  lemma RunOne(cfg: Config, s: State, steps: seq<Step>, t: State, step: Step)
    requires Run(cfg, s, steps, t) && Enabled(cfg, t, step)
    ensures Run(cfg, s, steps + [step], Apply(cfg, t, step))
  {
    RunNothing(cfg, Apply(cfg, t, step));
    assert [step][1..] == [];
    assert Run(cfg, t, [step], Apply(cfg, t, step));
    RunConcat(cfg, s, steps, t, [step], Apply(cfg, t, step));
  }

  // What clients share at the server.
  predicate SameServer(s: State, t: State) {
    s.entries == t.entries && s.delivered == t.delivered && s.pending == t.pending && s.dead == t.dead
  }

  // The server with everything that happens at it: `trace` has led from `start` to `world`. A loop sees
  // only what its commands return.
  class Server {
    const cfg: Config
    ghost const start: State
    ghost var world: State
    ghost var trace: seq<Step>

    constructor (cfg: Config, ghost s: State)
      ensures this.cfg == cfg && start == world == s && trace == [] && Valid()
    {
      this.cfg, start, world, trace := cfg, s, s, [];
      new;
      RunNothing(cfg, s);
    }

    ghost predicate Valid()
      reads this
    {
      Run(cfg, start, trace, world)
    }

    ghost function DeedsOf(p: nat, which: Which): seq<Deed>
      reads this
    {
      Deeds(cfg, start, trace, p, which)
    }

    // The other loops move: any number of steps, of any kind.
    ghost method Others(p: nat, which: Which)
      requires Valid() && p < |world.processes|
      modifies this
      ensures Valid() && Unmoved(old(world), world, p, which)
      ensures DeedsOf(p, which) == old(DeedsOf(p, which))
    {
      RunNothing(cfg, world);
      hide Run;
      var none: seq<Step> := [];
      assert Run(cfg, world, none, world) && forall step :: step in none ==> Foreign(step, p, which);
      var steps, t :| Run(cfg, world, steps, t) && forall step :: step in steps ==> Foreign(step, p, which);
      OthersLeaveLoop(cfg, world, steps, t, p, which);
      RunConcat(cfg, start, trace, world, steps, t);
      DeedsConcat(cfg, start, trace, world, steps, p, which);
      world, trace := t, trace + steps;
    }

    // A command of a loop has had its effect, or a loop has decided something: that is a step.
    ghost method Record(before: State, step: Step, p: nat, which: Which)
      requires Run(cfg, start, trace, before) && Enabled(cfg, before, step) && Maker(step) == Some((p, which))
      requires SameServer(Apply(cfg, before, step), world)
      modifies this
      ensures Valid() && world == Apply(cfg, before, step)
      ensures DeedsOf(p, which) == old(DeedsOf(p, which)) + [Deed(Head(before, p, which), step)]
    {
      hide Run, Apply;
      RunOne(cfg, start, trace, before, step);
      DeedsConcat(cfg, start, trace, before, [step], p, which);
      assert [step][1..] == [] && Deeds(cfg, before, [step], p, which) == [Deed(Head(before, p, which), step)];
      world, trace := Apply(cfg, before, step), trace + [step];
    }

    // XACK: true if the caller sees it succeed.
    method XAck(id: Id, reply: Reply) returns (ok: bool)
      modifies this`world
      ensures world == old(world).(pending := if reply.Failed? then old(world).pending else old(world).pending - {id})
      ensures ok <==> reply.Done?
    {
      if !reply.Failed? {
        world := world.(pending := world.pending - {id});
      }
      return reply.Done?;
    }

    // deadLetter: XADD of a copy with two extra fields.
    method DeadLetterEntry(m: XMessage, reply: Reply) returns (ok: bool)
      modifies this`world
      ensures world == old(world).(dead := if reply.Failed? then old(world).dead
                                           else old(world).dead + [DeadCopy(m.id, DeadValues(cfg, Itoa(m.id), m.values))])
      ensures ok <==> reply.Done?
    {
      var values := m.values;
      values := values["dlq_source_id" := Itoa(m.id)];
      values := values["dlq_source_stream" := cfg.stream];
      if !reply.Failed? {
        world := world.(dead := world.dead + [DeadCopy(m.id, values)]);
      }
      return reply.Done?;
    }

    // The generated dispatch: decode, call the handler, acknowledge.
    method DispatchEntry(ghost p: nat, which: Which, id: Id, a: Answer) returns (ok: bool)
      requires Valid() && p < |world.processes|
      requires Busy(LoopOf(world.processes[p], which), Dispatching) && LoopOf(world.processes[p], which).batch[0] == id
      modifies this
      ensures Valid() && (ok <==> a.decoded == Message && a.handled == NoError && a.ack == Done)
      ensures DeedsOf(p, which) == old(DeedsOf(p, which)) +
              if a.decoded == Message && a.handled == NoError
              then [Deed(Some(id), Dispatch(p, which, true)), Deed(Some(id), Ack(p, which, a.ack))]
              else [Deed(Some(id), Dispatch(p, which, false))]
      ensures Advanced(old(world), world, p, which)
    {
      hide Run;
      Others(p, which);
      if !a.decoded.Message? {
        Record(world, Dispatch(p, which, false), p, which);
        return false;
      }
      if !a.handled.NoError? {
        Record(world, Dispatch(p, which, false), p, which);
        return false;
      }
      Record(world, Dispatch(p, which, true), p, which);
      Others(p, which);
      ghost var before := world;
      ok := XAck(id, a.ack);
      Record(before, Ack(p, which, a.ack), p, which);
    }
  }

  // The loop is through with the first entry of its batch.
  predicate Advanced(s: State, t: State, p: nat, which: Which) {
    && p < |s.processes| == |t.processes| && s.entries <= t.entries
    && LoopOf(s.processes[p], which).batch != []
    && LoopOf(t.processes[p], which) == Next(LoopOf(s.processes[p], which), which)
    && (which.Reclaimer? ==> t.processes[p].attempts == s.processes[p].attempts)
  }

  predicate Different(messages: seq<XMessage>) {
    forall i, j :: 0 <= i < j < |messages| ==> messages[i].id != messages[j].id
  }

  // What a loop does with an entry it dispatches: the entry counts as handled, and is acknowledged, exactly if
  // its message could be decoded and the handler returned nil; otherwise its dispatch fails and nothing follows.
  ghost predicate HandledAsAnswered(deeds: seq<Deed>, p: nat, which: Which, id: Id, a: Answer) {
    && (Deed(Some(id), Dispatch(p, which, true)) in deeds <==> a.decoded == Message && a.handled == NoError)
    && (Deed(Some(id), Dispatch(p, which, false)) in deeds <==> a.decoded != Message || a.handled != NoError)
    && (forall reply :: Deed(Some(id), Ack(p, which, reply)) in deeds <==>
          a.decoded == Message && a.handled == NoError && reply == a.ack)
  }

  ghost predicate ReadAsAnswered(deeds: seq<Deed>, p: nat, messages: seq<XMessage>, answers: seq<Answer>)
    requires |messages| == |answers|
  {
    && (forall k :: 0 <= k < |messages| ==> HandledAsAnswered(deeds, p, Reader, messages[k].id, answers[k]))
    && Within(deeds, messages)
    && (forall d :: d in deeds ==> d.step.Dispatch? || d.step.Ack?)
  }

  // Nothing is done to other entries.
  ghost predicate Within(deeds: seq<Deed>, messages: seq<XMessage>) {
    forall d :: d in deeds ==> d.id.Some? && exists k :: 0 <= k < |messages| && messages[k].id == d.id.value
  }

  // The loop of readLoop over the entries one XREADGROUP returned, whatever others do before each of its
  // steps. An entry whose dispatch fails stays pending, and the loop goes on.
  method ProcessRead(server: Server, ghost p: nat, messages: seq<XMessage>, answers: seq<Answer>)
    requires |messages| == |answers| && server.Valid() && p < |server.world.processes|
    requires server.world.processes[p].reader == Loop(IdsOf(messages), Dispatching)
    modifies server
    ensures server.Valid() && p < |server.world.processes|
    ensures server.DeedsOf(p, Reader) == old(server.DeedsOf(p, Reader)) + ReadDeeds(p, messages, answers)
    ensures Different(messages) ==>
              ReadAsAnswered(server.DeedsOf(p, Reader)[|old(server.DeedsOf(p, Reader))|..], p, messages, answers)
    ensures server.world.processes[p].reader == Loop([], Dispatching)
  {
    hide *;
    FromEnd(messages);
    FromEnd(answers);
    ghost var all := server.DeedsOf(p, Reader) + ReadDeeds(p, messages, answers);
    for i := 0 to |messages|
      invariant server.Valid() && p < |server.world.processes|
      invariant server.DeedsOf(p, Reader) + ReadDeeds(p, messages[i..], answers[i..]) == all
      invariant server.world.processes[p].reader == Loop(IdsOf(messages[i..]), Dispatching)
    {
      ghost var mine, before := server.DeedsOf(p, Reader), server.world;
      From(messages, i);
      From(answers, i);
      ReadUnfold(p, messages[i], messages[i + 1..], answers[i], answers[i + 1..]);
      FirstOfBatch(before, p, messages[i], messages[i + 1..]);
      var _ := server.DispatchEntry(p, Reader, messages[i].id, answers[i]);
      HandleIs(p, Reader, messages[i].id, answers[i]);
      FirstIsDone(before, server.world, p, messages[i], messages[i + 1..]);
      Regroup(mine, HandleDeeds(p, Reader, messages[i].id, answers[i]), ReadDeeds(p, messages[i + 1..], answers[i + 1..]));
    }
    ReadNothing(p);
    NoIds();
    if Different(messages) { ReadMeans(p, messages, answers); }
    After(old(server.DeedsOf(p, Reader)), ReadDeeds(p, messages, answers));
  }

  lemma After(a: seq<Deed>, b: seq<Deed>)
    ensures (a + b)[|a|..] == b
  {
  }

  lemma HandleIs(p: nat, which: Which, id: Id, a: Answer)
    ensures HandleDeeds(p, which, id, a) ==
            if a.decoded == Message && a.handled == NoError
            then [Deed(Some(id), Dispatch(p, which, true)), Deed(Some(id), Ack(p, which, a.ack))]
            else [Deed(Some(id), Dispatch(p, which, false))]
  {
  }

  lemma {:induction false} ReadMeans(p: nat, messages: seq<XMessage>, answers: seq<Answer>)
    requires |messages| == |answers| && Different(messages)
    ensures ReadAsAnswered(ReadDeeds(p, messages, answers), p, messages, answers)
  {
    if messages != [] {
      var m, a, ms, as' := messages[0], answers[0], messages[1..], answers[1..];
      ReadMeans(p, ms, as');
      HandleIs(p, Reader, m.id, a);
      var head, tail := HandleDeeds(p, Reader, m.id, a), ReadDeeds(p, ms, as');
      assert HandledAsAnswered(head, p, Reader, m.id, a);
      hide HandleDeeds, ReadDeeds, HandledAsAnswered;
      WithinMore(head, tail, messages);
      forall k | 0 <= k < |messages|
        ensures HandledAsAnswered(head + tail, p, Reader, messages[k].id, answers[k])
      {
        assert k > 0 ==> messages[k] == ms[k - 1] && answers[k] == as'[k - 1];
        OfOneEntry(head, tail, messages[k].id);
        HandledOnce(head + tail, if k == 0 then head else tail, p, Reader, messages[k].id, answers[k]);
      }
    }
  }

  // The deeds for the first entry and those for the others are told apart by the entry.
  lemma WithinMore(head: seq<Deed>, tail: seq<Deed>, messages: seq<XMessage>)
    requires messages != [] && Different(messages) && Within(tail, messages[1..])
    requires forall d :: d in head ==> d.id == Some(messages[0].id)
    ensures Within(head + tail, messages)
    ensures forall d :: d in tail ==> d.id != Some(messages[0].id)
    ensures forall k, d :: 1 <= k < |messages| && d in head ==> d.id != Some(messages[k].id)
  {
    var ms := messages[1..];
    assert forall k :: 0 <= k < |ms| ==> ms[k] == messages[k + 1];
    forall d | d in head + tail
      ensures d.id.Some? && exists k :: 0 <= k < |messages| && messages[k].id == d.id.value
    {
      if d !in head {
        var k :| 0 <= k < |ms| && ms[k].id == d.id.value;
        assert messages[k + 1].id == d.id.value;
      }
    }
  }

  predicate SameFor(all: seq<Deed>, part: seq<Deed>, id: Id) {
    && (forall d :: d in all && d.id == Some(id) ==> d in part)
    && (forall d :: d in part && d.id == Some(id) ==> d in all)
  }

  lemma OfOneEntry(head: seq<Deed>, tail: seq<Deed>, id: Id)
    ensures (forall d :: d in tail ==> d.id != Some(id)) ==> SameFor(head + tail, head, id)
    ensures (forall d :: d in head ==> d.id != Some(id)) ==> SameFor(head + tail, tail, id)
  {
  }

  lemma HandledOnce(all: seq<Deed>, part: seq<Deed>, p: nat, which: Which, id: Id, a: Answer)
    requires HandledAsAnswered(part, p, which, id, a) && SameFor(all, part, id)
    ensures HandledAsAnswered(all, p, which, id, a)
  {
  }

  lemma ReadUnfold(p: nat, m: XMessage, messages: seq<XMessage>, a: Answer, answers: seq<Answer>)
    requires |messages| == |answers|
    ensures ReadDeeds(p, [m] + messages, [a] + answers) == HandleDeeds(p, Reader, m.id, a) + ReadDeeds(p, messages, answers)
  {
    assert ([m] + messages)[1..] == messages && ([a] + answers)[1..] == answers;
    hide HandleDeeds;
  }

  lemma ReadNothing(p: nat)
    ensures ReadDeeds(p, [], []) == []
  {
  }

  lemma NoIds()
    ensures IdsOf([]) == []
  {
  }

  lemma FirstOfBatch(s: State, p: nat, m: XMessage, rest: seq<XMessage>)
    requires p < |s.processes| && s.processes[p].reader == Loop(IdsOf([m] + rest), Dispatching)
    ensures Busy(LoopOf(s.processes[p], Reader), Dispatching) && LoopOf(s.processes[p], Reader).batch[0] == m.id
  {
    assert IdsOf([m] + rest)[0] == m.id;
  }

  lemma FirstIsDone(s: State, t: State, p: nat, m: XMessage, rest: seq<XMessage>)
    requires p < |s.processes| && s.processes[p].reader == Loop(IdsOf([m] + rest), Dispatching) && Advanced(s, t, p, Reader)
    ensures p < |t.processes| && t.processes[p].reader == Loop(IdsOf(rest), Dispatching)
  {
    assert IdsOf([m] + rest)[1..] == IdsOf(rest);
  }

  // The entries of a batch are those of the stream.
  predicate Known(s: State, messages: seq<XMessage>) {
    forall m :: m in messages ==> m.id < |s.entries| && s.entries[m.id] == m.values
  }

  // The reclaimer of p goes on with these entries.
  predicate Before(s: State, p: nat, messages: seq<XMessage>, attempts: map<Id, nat>) {
    && p < |s.processes| && s.processes[p].attempts == attempts && Known(s, messages)
    && s.processes[p].reclaimer == Loop(IdsOf(messages), Counting)
  }

  // It is at m, with others left.
  predicate At(s: State, p: nat, m: XMessage, rest: seq<XMessage>, phase: Phase, attempts: map<Id, nat>) {
    && p < |s.processes| && s.processes[p].attempts == attempts && Known(s, [m]) && Known(s, rest)
    && s.processes[p].reclaimer == Loop([m.id] + IdsOf(rest), phase)
  }

  lemma Starts(s: State, p: nat, m: XMessage, rest: seq<XMessage>, attempts: map<Id, nat>)
    requires Before(s, p, [m] + rest, attempts)
    ensures At(s, p, m, rest, Counting, attempts)
  {
    assert IdsOf([m] + rest) == [m.id] + IdsOf(rest);
    assert ([m] + rest)[0] == m && forall x :: x in rest ==> x in [m] + rest;
  }

  lemma Stays(s: State, t: State, p: nat, m: XMessage, rest: seq<XMessage>, phase: Phase, attempts: map<Id, nat>)
    requires At(s, p, m, rest, phase, attempts) && Unmoved(s, t, p, Reclaimer)
    ensures At(t, p, m, rest, phase, attempts)
  {
  }

  lemma CountEffect(cfg: Config, s: State, p: nat, m: XMessage, rest: seq<XMessage>, attempts: map<Id, nat>)
    requires At(s, p, m, rest, Counting, attempts)
    ensures Enabled(cfg, s, Count(p)) && SameServer(Apply(cfg, s, Count(p)), s)
    ensures var n := Get(attempts, m.id) + 1;
            At(Apply(cfg, s, Count(p)), p, m, rest,
               if n < cfg.maxDeliveries then Dispatching else if cfg.deadLetter then DeadLettering else Dropping,
               attempts[m.id := n])
  {
  }

  lemma DeadLetterEffect(cfg: Config, s: State, p: nat, m: XMessage, rest: seq<XMessage>, attempts: map<Id, nat>, reply: Reply)
    requires At(s, p, m, rest, DeadLettering, attempts)
    ensures Enabled(cfg, s, DeadLetter(p, reply))
    ensures var t := Apply(cfg, s, DeadLetter(p, reply));
            && SameServer(t, s.(dead := if reply.Failed? then s.dead
                                        else s.dead + [DeadCopy(m.id, DeadValues(cfg, Itoa(m.id), m.values))]))
            && (if reply.Done? then At(t, p, m, rest, Dropping, attempts) else Before(t, p, rest, attempts))
  {
    assert m in [m] && ([m.id] + IdsOf(rest))[1..] == IdsOf(rest);
    hide DeadValues, Itoa, TallyOf;
  }

  lemma DropEffect(cfg: Config, s: State, p: nat, m: XMessage, rest: seq<XMessage>, attempts: map<Id, nat>, reply: Reply)
    requires At(s, p, m, rest, Dropping, attempts)
    ensures Enabled(cfg, s, Drop(p, reply))
    ensures var t := Apply(cfg, s, Drop(p, reply));
            && SameServer(t, s.(pending := if reply.Failed? then s.pending else s.pending - {m.id}))
            && Before(t, p, rest, attempts - {m.id})
  {
    assert ([m.id] + IdsOf(rest))[1..] == IdsOf(rest);
    hide TallyOf;
  }

  lemma DispatchEffect(s: State, t: State, p: nat, m: XMessage, rest: seq<XMessage>, attempts: map<Id, nat>)
    requires At(s, p, m, rest, Dispatching, attempts)
    ensures Busy(LoopOf(s.processes[p], Reclaimer), Dispatching) && LoopOf(s.processes[p], Reclaimer).batch[0] == m.id
    ensures Advanced(s, t, p, Reclaimer) ==> Before(t, p, rest, attempts)
  {
    assert ([m.id] + IdsOf(rest))[1..] == IdsOf(rest);
  }

  lemma AtProcess(s: State, p: nat, m: XMessage, rest: seq<XMessage>, phase: Phase, attempts: map<Id, nat>)
    requires At(s, p, m, rest, phase, attempts)
    ensures p < |s.processes|
  {
  }

  lemma BatchUnfold(cfg: Config, p: nat, attempts: map<Id, nat>, m: XMessage, messages: seq<XMessage>, a: Answer, answers: seq<Answer>)
    requires |messages| == |answers|
    ensures BatchDeeds(cfg, p, attempts, [m] + messages, [a] + answers) ==
            EntryDeeds(cfg, p, m.id, Get(attempts, m.id) + 1, a) +
            BatchDeeds(cfg, p, AttemptsAfter(cfg, attempts, m.id, a), messages, answers)
  {
    assert ([m] + messages)[1..] == messages && ([a] + answers)[1..] == answers;
    hide EntryDeeds, AttemptsAfter;
  }

  lemma From<T>(s: seq<T>, i: nat)
    requires i < |s|
    ensures s[i..] == [s[i]] + s[i + 1..]
  {
  }

  lemma FromEnd<T>(s: seq<T>)
    ensures s[0..] == s && s[|s|..] == []
  {
  }

  lemma Regroup(a: seq<Deed>, b: seq<Deed>, c: seq<Deed>)
    ensures a + (b + c) == (a + b) + c
  {
  }

  lemma NoBatch(cfg: Config, p: nat, attempts: map<Id, nat>)
    ensures BatchDeeds(cfg, p, attempts, [], []) == []
  {
  }

  // What the reclaimer does with an entry that comes back for the n-th time.
  ghost predicate EntryAsAnswered(deeds: seq<Deed>, cfg: Config, p: nat, id: Id, n: nat, a: Answer) {
    && (if n < cfg.maxDeliveries then HandledAsAnswered(deeds, p, Reclaimer, id, a)
        else (forall ok :: Deed(Some(id), Dispatch(p, Reclaimer, ok)) !in deeds) &&
             (forall reply :: Deed(Some(id), Ack(p, Reclaimer, reply)) !in deeds))
    && (forall reply :: Deed(Some(id), DeadLetter(p, reply)) in deeds <==>
          n >= cfg.maxDeliveries && cfg.deadLetter && reply == a.add)
    && (forall reply :: Deed(Some(id), Drop(p, reply)) in deeds <==>
          n >= cfg.maxDeliveries && (cfg.deadLetter ==> a.add == Done) && reply == a.drop)
  }

  ghost predicate ClaimedAsAnswered(deeds: seq<Deed>, cfg: Config, p: nat, attempts: map<Id, nat>, messages: seq<XMessage>,
                                    answers: seq<Answer>)
    requires |messages| == |answers|
  {
    && (forall k :: 0 <= k < |messages| ==>
          EntryAsAnswered(deeds, cfg, p, messages[k].id, Get(attempts, messages[k].id) + 1, answers[k]))
    && Within(deeds, messages)
  }

  lemma {:induction false} ClaimedMeans(cfg: Config, p: nat, attempts: map<Id, nat>, messages: seq<XMessage>, answers: seq<Answer>)
    requires |messages| == |answers| && Different(messages)
    ensures ClaimedAsAnswered(BatchDeeds(cfg, p, attempts, messages, answers), cfg, p, attempts, messages, answers)
    decreases messages
  {
    hide EntryDeeds, EntryAsAnswered, HandledAsAnswered;
    if messages != [] {
      var m, a, ms, as' := messages[0], answers[0], messages[1..], answers[1..];
      var later := AttemptsAfter(cfg, attempts, m.id, a);
      assert forall id :: id != m.id ==> Get(later, id) == Get(attempts, id);
      hide ClaimedAsAnswered, AttemptsAfter, Get;
      assert Different(ms);
      hide Different;
      ClaimedMeans(cfg, p, later, ms, as');
      EntryMeans(cfg, p, m.id, Get(attempts, m.id) + 1, a);
      Joined(cfg, p, attempts, later, EntryDeeds(cfg, p, m.id, Get(attempts, m.id) + 1, a), BatchDeeds(cfg, p, later, ms, as'),
             messages, answers);
    }
  }

  lemma Joined(cfg: Config, p: nat, attempts: map<Id, nat>, later: map<Id, nat>, head: seq<Deed>, tail: seq<Deed>,
               messages: seq<XMessage>, answers: seq<Answer>)
    requires |messages| == |answers| > 0 && Different(messages)
    requires forall id :: id != messages[0].id ==> Get(later, id) == Get(attempts, id)
    requires EntryAsAnswered(head, cfg, p, messages[0].id, Get(attempts, messages[0].id) + 1, answers[0])
    requires forall d :: d in head ==> d.id == Some(messages[0].id)
    requires ClaimedAsAnswered(tail, cfg, p, later, messages[1..], answers[1..])
    ensures ClaimedAsAnswered(head + tail, cfg, p, attempts, messages, answers)
  {
    hide EntryAsAnswered, Within, Get;
    WithinMore(head, tail, messages);
    var ms, as' := messages[1..], answers[1..];
    forall k | 0 <= k < |messages|
      ensures EntryAsAnswered(head + tail, cfg, p, messages[k].id, Get(attempts, messages[k].id) + 1, answers[k])
    {
      assert k > 0 ==> messages[k] == ms[k - 1] && answers[k] == as'[k - 1];
      OfOneEntry(head, tail, messages[k].id);
      EntryOnce(head + tail, if k == 0 then head else tail, cfg, p, messages[k].id, Get(attempts, messages[k].id) + 1, answers[k]);
    }
  }

  lemma EntryMeans(cfg: Config, p: nat, id: Id, n: nat, a: Answer)
    ensures EntryAsAnswered(EntryDeeds(cfg, p, id, n, a), cfg, p, id, n, a)
    ensures forall d :: d in EntryDeeds(cfg, p, id, n, a) ==> d.id == Some(id)
  {
    var deeds := EntryDeeds(cfg, p, id, n, a);
    HandleIs(p, Reclaimer, id, a);
    if n >= cfg.maxDeliveries {
      assert forall d :: d in deeds <==>
        || d == Deed(Some(id), Count(p))
        || (cfg.deadLetter && d == Deed(Some(id), DeadLetter(p, a.add)))
        || ((cfg.deadLetter ==> a.add.Done?) && d == Deed(Some(id), Drop(p, a.drop)));
    } else {
      var handled := HandleDeeds(p, Reclaimer, id, a);
      assert HandledAsAnswered(handled, p, Reclaimer, id, a);
      assert forall d :: d in deeds <==> d == Deed(Some(id), Count(p)) || d in handled;
    }
    hide EntryDeeds, HandleDeeds;
  }

  lemma EntryOnce(all: seq<Deed>, part: seq<Deed>, cfg: Config, p: nat, id: Id, n: nat, a: Answer)
    requires EntryAsAnswered(part, cfg, p, id, n, a) && SameFor(all, part, id)
    ensures EntryAsAnswered(all, cfg, p, id, n, a)
  {
    if n < cfg.maxDeliveries { HandledOnce(all, part, p, Reclaimer, id, a); }
  }

  // The reclaimer's own state and the loop over the entries one XAUTOCLAIM returned.
  class ReclaimerLoop {
    const server: Server
    var attempts: map<Id, nat>

    constructor (server: Server)
      ensures this.server == server && attempts == map[]
    {
      this.server, attempts := server, map[];
    }

    // The loop makes these steps, whatever others do before each of them.
    method ProcessClaimed(ghost p: nat, messages: seq<XMessage>, answers: seq<Answer>)
      requires |messages| == |answers| && server.Valid() && Before(server.world, p, messages, attempts)
      modifies this, server
      ensures server.Valid() && Before(server.world, p, [], attempts)
      ensures server.DeedsOf(p, Reclaimer) ==
              old(server.DeedsOf(p, Reclaimer)) + BatchDeeds(server.cfg, p, old(attempts), messages, answers)
      ensures Different(messages) ==>
                ClaimedAsAnswered(server.DeedsOf(p, Reclaimer)[|old(server.DeedsOf(p, Reclaimer))|..], server.cfg, p,
                                  old(attempts), messages, answers)
    {
      hide *;
      FromEnd(messages);
      FromEnd(answers);
      ghost var all := server.DeedsOf(p, Reclaimer) + BatchDeeds(server.cfg, p, attempts, messages, answers);
      for i := 0 to |messages|
        invariant server.Valid() && Before(server.world, p, messages[i..], attempts)
        invariant server.DeedsOf(p, Reclaimer) + BatchDeeds(server.cfg, p, attempts, messages[i..], answers[i..]) == all
      {
        ghost var m, a, ms, as' := messages[i], answers[i], messages[i + 1..], answers[i + 1..];
        From(messages, i);
        From(answers, i);
        BatchUnfold(server.cfg, p, attempts, m, ms, a, as');
        ghost var mine, deeds := server.DeedsOf(p, Reclaimer), EntryDeeds(server.cfg, p, m.id, Get(attempts, m.id) + 1, a);
        ProcessEntry(p, messages[i], ms, answers[i]);
        Regroup(mine, deeds, BatchDeeds(server.cfg, p, attempts, ms, as'));
      }
      FromEnd(messages);
      FromEnd(answers);
      NoBatch(server.cfg, p, attempts);
      if Different(messages) { ClaimedMeans(server.cfg, p, old(attempts), messages, answers); }
      After(old(server.DeedsOf(p, Reclaimer)), BatchDeeds(server.cfg, p, old(attempts), messages, answers));
    }

    // One round of the loop.
    method ProcessEntry(ghost p: nat, m: XMessage, ghost rest: seq<XMessage>, a: Answer)
      requires server.Valid() && Before(server.world, p, [m] + rest, attempts)
      modifies this, server
      ensures server.Valid() && Before(server.world, p, rest, attempts)
      ensures attempts == AttemptsAfter(server.cfg, old(attempts), m.id, a)
      ensures server.DeedsOf(p, Reclaimer) ==
              old(server.DeedsOf(p, Reclaimer)) + EntryDeeds(server.cfg, p, m.id, Get(old(attempts), m.id) + 1, a)
    {
      hide Run, Apply, Enabled, Deeds, Before, At, Unmoved, SameServer, HandleDeeds, Advanced;
      Starts(server.world, p, m, rest, attempts);
      AtProcess(server.world, p, m, rest, Counting, attempts);
      server.Others(p, Reclaimer);
      Stays(old(server.world), server.world, p, m, rest, Counting, attempts);
      CountEffect(server.cfg, server.world, p, m, rest, attempts);
      attempts := attempts[m.id := Get(attempts, m.id) + 1];
      server.Record(server.world, Count(p), p, Reclaimer);
      if attempts[m.id] >= server.cfg.maxDeliveries {
        var done := GiveUp(p, m, rest, a);
        if done {
          attempts := attempts - {m.id};
        }
        return;
      }
      ghost var before := server.world;
      DispatchEffect(before, before, p, m, rest, attempts);
      AtProcess(before, p, m, rest, Dispatching, attempts);
      var _ := server.DispatchEntry(p, Reclaimer, m.id, a);
      DispatchEffect(before, server.world, p, m, rest, attempts);
      HandleIs(p, Reclaimer, m.id, a);
    }

    // What follows when an entry has been claimed too often: `done` if it is not to be tried again.
    method GiveUp(ghost p: nat, m: XMessage, ghost rest: seq<XMessage>, a: Answer) returns (done: bool)
      requires server.Valid()
      requires At(server.world, p, m, rest, if server.cfg.deadLetter then DeadLettering else Dropping, attempts)
      modifies server
      ensures server.Valid() && Before(server.world, p, rest, if done then attempts - {m.id} else attempts)
      ensures done <==> (server.cfg.deadLetter ==> a.add.Done?)
      ensures server.DeedsOf(p, Reclaimer) == old(server.DeedsOf(p, Reclaimer)) +
              (if server.cfg.deadLetter then [Deed(Some(m.id), DeadLetter(p, a.add))] else []) +
              if done then [Deed(Some(m.id), Drop(p, a.drop))] else []
    {
      hide Run, Apply, Enabled, Deeds, Before, At, Unmoved, SameServer;
      AtProcess(server.world, p, m, rest, if server.cfg.deadLetter then DeadLettering else Dropping, attempts);
      if server.cfg.deadLetter {
        server.Others(p, Reclaimer);
        Stays(old(server.world), server.world, p, m, rest, DeadLettering, attempts);
        ghost var before := server.world;
        DeadLetterEffect(server.cfg, before, p, m, rest, attempts, a.add);
        var copied := server.DeadLetterEntry(m, a.add);
        server.Record(before, DeadLetter(p, a.add), p, Reclaimer);
        if !copied {
          return false;
        }
      }
      ghost var earlier := server.world;
      AtProcess(earlier, p, m, rest, Dropping, attempts);
      server.Others(p, Reclaimer);
      Stays(earlier, server.world, p, m, rest, Dropping, attempts);
      ghost var before := server.world;
      DropEffect(server.cfg, before, p, m, rest, attempts, a.drop);
      var _ := server.XAck(m.id, a.drop);
      server.Record(before, Drop(p, a.drop), p, Reclaimer);
      return true;
    }
  }
}
