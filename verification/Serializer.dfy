/** Writing a recording as JSON, and reading the same recording back from the text. */
module Serializer {
  import opened Basics
  import opened Decimals
  import opened JsonValues
  import opened JsonGrammar
  import opened JsonRoundTrip
  import opened JsonText
  import opened Recordings
  import opened TickSamples

  /** A finished recorder's contents and what is known about its run. */
  datatype Recording = Recording(
    runId: string, origin: Option<Clock>, capacity: nat, storage: nat, dropped: nat, samples: seq<TickSample>)

  /** A number as the parser types it. */
  function Number(n: nat): Value {
    if n <= INT64_MAX then Int(n) else UInt(n)
  }

  function NumberOrNull(n: nat, present: bool): Value {
    if present then Number(n) else Null
  }

  function OutcomeName(o: TickSamples.Outcome): string {
    match o
    case Completed => "completed"
    case CommandSweepThrew => "command_sweep_threw"
    case SessionSweepThrew => "session_sweep_threw"
    case PolicyEvaluateThrew => "policy_evaluate_threw"
  }

  function SampleMembers(s: TickSample): seq<Member> {
    [Member("tick_id", Number(s.id)),
     Member("started_ns", Number(s.started)),
     Member("command_sweep_ended_ns", NumberOrNull(s.commandEnded, CommandSweepCompleted(s.outcome))),
     Member("session_sweep_ended_ns", NumberOrNull(s.sessionEnded, SessionSweepCompleted(s.outcome))),
     Member("policy_evaluate_ended_ns", NumberOrNull(s.policyEnded, PolicyEvaluateCompleted(s.outcome))),
     Member("finished_ns", Number(s.finished)),
     Member("outcome", Str(OutcomeName(s.outcome)))]
  }

  function ClockValue(c: Option<Clock>): Value {
    if c.None? then Null
    else Obj([Member("before_unix_ns", Number(c.value.before)), Member("after_unix_ns", Number(c.value.after))])
  }

  function CountsValue(r: Recording): Value {
    Obj([Member("capacity", Number(r.capacity)), Member("storage_bytes", Number(r.storage)),
         Member("captured", Number(|r.samples|)), Member("dropped", Number(r.dropped))])
  }

  function SampleValues(samples: seq<TickSample>): (vs: seq<Value>)
    ensures |vs| == |samples| && forall i :: 0 <= i < |vs| ==> vs[i] == Obj(SampleMembers(samples[i]))
  {
    seq(|samples|, i requires 0 <= i < |samples| => Obj(SampleMembers(samples[i])))
  }

  function RecordingMembers(r: Recording): seq<Member> {
    [Member("schema_name", Str("ddcs.tick_profile")),
     Member("schema_version", Number(1)),
     Member("time_unit", Str("ns")),
     Member("run_id", Str(r.runId)),
     Member("recording_origin_utc", ClockValue(r.origin)),
     Member("recording", CountsValue(r)),
     Member("samples", Arr(SampleValues(r.samples)))]
  }

  // ---- the writer ----

  const NO_FLOATS := Floats(_ => None, _ => "")

  /** One more member behind those written so far. */
  lemma {:induction false} MembersSnoc(f: Floats, ms: seq<Member>, m: Member)
    ensures DumpMembers(f, ms + [m]) ==
            if ms == [] then DumpMember(f, m) else DumpMembers(f, ms) + "," + DumpMember(f, m)
    decreases |ms|
  {
    if |ms| <= 1 {
      assert ms + [m] == if ms == [] then [m] else [ms[0], m];
      assert ms != [] ==> (ms + [m])[1..] == [m];
    } else {
      assert (ms + [m])[1..] == ms[1..] + [m];
      MembersSnoc(f, ms[1..], m);
    }
  }

  lemma {:induction false} ElementsSnoc(f: Floats, vs: seq<Value>, v: Value)
    ensures DumpElements(f, vs + [v]) ==
            if vs == [] then Dump(f, v) else DumpElements(f, vs) + "," + Dump(f, v)
    decreases |vs|
  {
    if |vs| <= 1 {
      assert vs + [v] == if vs == [] then [v] else [vs[0], v];
      assert vs != [] ==> (vs + [v])[1..] == [v];
    } else {
      assert (vs + [v])[1..] == vs[1..] + [v];
      ElementsSnoc(f, vs[1..], v);
    }
  }

  /** What stands in front of the next member. */
  function Written(ms: seq<Member>): string {
    if ms == [] then "{" else "{" + DumpMembers(NO_FLOATS, ms) + ","
  }

  lemma WrittenGrows(start: string, ms: seq<Member>, m: Member)
    ensures start + Written(ms) + DumpMember(NO_FLOATS, m) + "," == start + Written(ms + [m])
  {
    MembersSnoc(NO_FLOATS, ms, m);
  }

  lemma WrittenCloses(start: string, ms: seq<Member>, m: Member)
    ensures start + Written(ms) + DumpMember(NO_FLOATS, m) + "}" == start + Dump(NO_FLOATS, Obj(ms + [m]))
  {
    var all, last := DumpMembers(NO_FLOATS, ms + [m]), DumpMember(NO_FLOATS, m);
    ObjectText(ms + [m]);
    assert all == if ms == [] then last else DumpMembers(NO_FLOATS, ms) + "," + last by {
      MembersSnoc(NO_FLOATS, ms, m);
    }
    Closed(start, DumpMembers(NO_FLOATS, ms), last);
  }

  lemma ObjectText(ms: seq<Member>)
    ensures Dump(NO_FLOATS, Obj(ms)) == "{" + DumpMembers(NO_FLOATS, ms) + "}"
  {
  }

  lemma Closed(start: string, a: string, b: string)
    ensures start + "{" + b + "}" == start + ("{" + b + "}")
    ensures start + ("{" + a + ",") + b + "}" == start + ("{" + (a + "," + b) + "}")
  {
  }

  method AppendKey(out: Output, key: string)
    modifies out
    ensures out.text == old(out.text) + Quoted(key) + ":"
  {
    out.AppendStringLiteral(key);
    out.text := out.text + ":";
  }

  method AppendUint64(out: Output, n: nat)
    modifies out
    ensures out.text == old(out.text) + Dump(NO_FLOATS, Number(n))
  {
    out.text := out.text + Decimal(n);
  }

  lemma MemberText(before: string, key: string, v: Value)
    ensures before + Quoted(key) + ":" + Dump(NO_FLOATS, v) == before + DumpMember(NO_FLOATS, Member(key, v))
  {
    assert DumpMember(NO_FLOATS, Member(key, v)) == Quoted(key) + ":" + Dump(NO_FLOATS, v);
  }

  /** A member with a number, and the comma behind it. */
  method AppendNumber(out: Output, key: string, n: nat, ghost start: string, ghost ms: seq<Member>)
    requires out.text == start + Written(ms)
    modifies out
    ensures out.text == start + Written(ms + [Member(key, Number(n))])
  {
    AppendKey(out, key);
    AppendUint64(out, n);
    out.text := out.text + ",";
    MemberText(start + Written(ms), key, Number(n));
    WrittenGrows(start, ms, Member(key, Number(n)));
  }

  method AppendEndpoint(out: Output, key: string, n: nat, completed: bool, ghost start: string, ghost ms: seq<Member>)
    requires out.text == start + Written(ms)
    modifies out
    ensures out.text == start + Written(ms + [Member(key, NumberOrNull(n, completed))])
  {
    AppendKey(out, key);
    if completed {
      AppendUint64(out, n);
    } else {
      out.text := out.text + "null";
    }
    out.text := out.text + ",";
    MemberText(start + Written(ms), key, NumberOrNull(n, completed));
    WrittenGrows(start, ms, Member(key, NumberOrNull(n, completed)));
  }

  method AppendString(out: Output, key: string, value: string, ghost start: string, ghost ms: seq<Member>)
    requires out.text == start + Written(ms)
    modifies out
    ensures out.text == start + Written(ms + [Member(key, Str(value))])
  {
    AppendKey(out, key);
    out.AppendStringLiteral(value);
    out.text := out.text + ",";
    MemberText(start + Written(ms), key, Str(value));
    WrittenGrows(start, ms, Member(key, Str(value)));
  }

  method AppendLastNumber(out: Output, key: string, n: nat, ghost start: string, ghost ms: seq<Member>)
    requires out.text == start + Written(ms)
    modifies out
    ensures out.text == start + Dump(NO_FLOATS, Obj(ms + [Member(key, Number(n))]))
  {
    AppendKey(out, key);
    AppendUint64(out, n);
    out.text := out.text + "}";
    MemberText(start + Written(ms), key, Number(n));
    WrittenCloses(start, ms, Member(key, Number(n)));
  }

  method AppendLastString(out: Output, key: string, value: string, ghost start: string, ghost ms: seq<Member>)
    requires out.text == start + Written(ms)
    modifies out
    ensures out.text == start + Dump(NO_FLOATS, Obj(ms + [Member(key, Str(value))]))
  {
    AppendKey(out, key);
    out.AppendStringLiteral(value);
    out.text := out.text + "}";
    MemberText(start + Written(ms), key, Str(value));
    WrittenCloses(start, ms, Member(key, Str(value)));
  }

  /** The members of a sample up to the end of its policy evaluation. */
  function SampleFront(s: TickSample): seq<Member> {
    [Member("tick_id", Number(s.id))]
    + [Member("started_ns", Number(s.started))]
    + [Member("command_sweep_ended_ns", NumberOrNull(s.commandEnded, CommandSweepCompleted(s.outcome)))]
    + [Member("session_sweep_ended_ns", NumberOrNull(s.sessionEnded, SessionSweepCompleted(s.outcome)))]
    + [Member("policy_evaluate_ended_ns", NumberOrNull(s.policyEnded, PolicyEvaluateCompleted(s.outcome)))]
  }

  method AppendSampleFront(out: Output, s: TickSample, ghost start: string)
    requires out.text == start
    modifies out
    ensures out.text == start + Written(SampleFront(s))
  {
    out.text := out.text + "{";
    ghost var ms: seq<Member> := [];
    AppendNumber(out, "tick_id", s.id, start, ms);
    ms := [Member("tick_id", Number(s.id))];
    assert [] + ms == ms;
    AppendNumber(out, "started_ns", s.started, start, ms);
    ms := ms + [Member("started_ns", Number(s.started))];
    AppendEndpoint(out, "command_sweep_ended_ns", s.commandEnded, CommandSweepCompleted(s.outcome), start, ms);
    ms := ms + [Member("command_sweep_ended_ns", NumberOrNull(s.commandEnded, CommandSweepCompleted(s.outcome)))];
    AppendEndpoint(out, "session_sweep_ended_ns", s.sessionEnded, SessionSweepCompleted(s.outcome), start, ms);
    ms := ms + [Member("session_sweep_ended_ns", NumberOrNull(s.sessionEnded, SessionSweepCompleted(s.outcome)))];
    AppendEndpoint(out, "policy_evaluate_ended_ns", s.policyEnded, PolicyEvaluateCompleted(s.outcome), start, ms);
  }

  method AppendSample(out: Output, s: TickSample)
    modifies out
    ensures out.text == old(out.text) + Dump(NO_FLOATS, Obj(SampleMembers(s)))
  {
    ghost var start, ms := out.text, SampleFront(s);
    AppendSampleFront(out, s, start);
    AppendNumber(out, "finished_ns", s.finished, start, ms);
    ms := ms + [Member("finished_ns", Number(s.finished))];
    AppendLastString(out, "outcome", OutcomeName(s.outcome), start, ms);
    assert ms + [Member("outcome", Str(OutcomeName(s.outcome)))] == SampleMembers(s);
  }

  function SamplesText(samples: seq<TickSample>): string {
    DumpElements(NO_FLOATS, SampleValues(samples))
  }

  lemma SamplesSnoc(samples: seq<TickSample>, i: nat)
    requires i < |samples|
    ensures var text := Dump(NO_FLOATS, Obj(SampleMembers(samples[i])));
            SamplesText(samples[..i + 1]) == if i == 0 then text else SamplesText(samples[..i]) + "," + text
  {
    var front, v := SampleValues(samples[..i]), Obj(SampleMembers(samples[i]));
    assert SampleValues(samples[..i + 1]) == front + [v];
    assert front == [] <==> i == 0;
    ElementsSnoc(NO_FLOATS, front, v);
  }

  lemma Regroup(start: string, a: string, b: string)
    ensures start + a + "," + b == start + (a + "," + b)
  {
  }

  /** The samples, one behind the other. */
  method AppendSamples(out: Output, samples: seq<TickSample>)
    modifies out
    ensures out.text == old(out.text) + "[" + SamplesText(samples) + "]"
  {
    out.text := out.text + "[";
    ghost var start := out.text;
    assert start + SamplesText(samples[..0]) == start;
    var first := true;
    for i := 0 to |samples|
      invariant out.text == start + SamplesText(samples[..i]) && first == (i == 0)
    {
      SamplesSnoc(samples, i);
      if !first {
        out.text := out.text + ",";
        Regroup(start, SamplesText(samples[..i]), Dump(NO_FLOATS, Obj(SampleMembers(samples[i]))));
      }
      AppendSample(out, samples[i]);
      first := false;
    }
    assert samples[..|samples|] == samples;
    out.text := out.text + "]";
  }

  /** The run's name, its clock bracket and the recorder's counts. */
  function Head(r: Recording): seq<Member> {
    [Member("schema_name", Str("ddcs.tick_profile"))]
    + [Member("schema_version", Number(1))]
    + [Member("time_unit", Str("ns"))]
    + [Member("run_id", Str(r.runId))]
  }

  method AppendHead(out: Output, r: Recording, ghost start: string)
    requires out.text == start
    modifies out
    ensures out.text == start + Written(Head(r))
  {
    out.text := out.text + "{";
    ghost var ms: seq<Member> := [];
    AppendString(out, "schema_name", "ddcs.tick_profile", start, ms);
    ms := [Member("schema_name", Str("ddcs.tick_profile"))];
    assert [] + ms == ms;
    AppendNumber(out, "schema_version", 1, start, ms);
    ms := ms + [Member("schema_version", Number(1))];
    AppendString(out, "time_unit", "ns", start, ms);
    ms := ms + [Member("time_unit", Str("ns"))];
    AppendString(out, "run_id", r.runId, start, ms);
  }

  method AppendClock(out: Output, c: Option<Clock>)
    modifies out
    ensures out.text == old(out.text) + Dump(NO_FLOATS, ClockValue(c))
  {
    if c.None? {
      out.text := out.text + "null";
      return;
    }
    ghost var start := out.text;
    out.text := out.text + "{";
    AppendNumber(out, "before_unix_ns", c.value.before, start, []);
    ghost var ms := [Member("before_unix_ns", Number(c.value.before))];
    assert [] + ms == ms;
    AppendLastNumber(out, "after_unix_ns", c.value.after, start, ms);
    assert ClockValue(c) == Obj(ms + [Member("after_unix_ns", Number(c.value.after))]);
  }

  method AppendCounts(out: Output, r: Recording)
    modifies out
    ensures out.text == old(out.text) + Dump(NO_FLOATS, CountsValue(r))
  {
    ghost var start := out.text;
    out.text := out.text + "{";
    AppendNumber(out, "capacity", r.capacity, start, []);
    ghost var ms := [Member("capacity", Number(r.capacity))];
    assert [] + ms == ms;
    AppendNumber(out, "storage_bytes", r.storage, start, ms);
    ms := ms + [Member("storage_bytes", Number(r.storage))];
    AppendNumber(out, "captured", |r.samples|, start, ms);
    ms := ms + [Member("captured", Number(|r.samples|))];
    AppendLastNumber(out, "dropped", r.dropped, start, ms);
    assert CountsValue(r) == Obj(ms + [Member("dropped", Number(r.dropped))]);
  }

  predicate ClockOk(c: Option<Clock>) {
    c.None? || c.value.before <= c.value.after
  }

  method AllValid(samples: seq<TickSample>) returns (ok: bool)
    ensures ok == forall s :: s in samples ==> ValidSample(s)
  {
    for i := 0 to |samples|
      invariant forall k :: 0 <= k < i ==> ValidSample(samples[k])
    {
      if !ValidSample(samples[i]) {
        return false;
      }
    }
    ok := true;
  }

  /** A run without a name, a clock bracket the wrong way round and a sample that is not one are refused; everything
      else is written as compact JSON. */
  method SerializeRecording(r: Recording) returns (text: Option<string>)
    ensures text.Some? <==>
              && r.runId != "" && (r.origin.Some? ==> r.origin.value.before <= r.origin.value.after)
              && forall s :: s in r.samples ==> ValidSample(s)
    ensures text.Some? ==> text.value == Dump(NO_FLOATS, Obj(RecordingMembers(r)))
  {
    if r.runId == "" {
      return None;
    }
    if r.origin.Some? && r.origin.value.before > r.origin.value.after {
      return None;
    }
    var valid := AllValid(r.samples);
    if !valid {
      return None;
    }
    var out := new Output();
    AppendHead(out, r, "");
    assert "" + Written(Head(r)) == Written(Head(r));
    AppendMiddle(out, r);
    AppendTail(out, r, Middle(r));
    TailCompletes(r);
    text := Some(out.text);
  }

  lemma TailCompletes(r: Recording)
    ensures Middle(r) + [Member("samples", Arr(SampleValues(r.samples)))] == RecordingMembers(r)
  {
  }

  /** All members but the samples. */
  function Middle(r: Recording): seq<Member> {
    Head(r) + [Member("recording_origin_utc", ClockValue(r.origin))] + [Member("recording", CountsValue(r))]
  }

  method AppendMiddle(out: Output, r: Recording)
    requires out.text == Written(Head(r))
    modifies out
    ensures out.text == Written(Middle(r))
  {
    ghost var ms := Head(r);
    AppendKey(out, "recording_origin_utc");
    AppendClock(out, r.origin);
    out.text := out.text + ",";
    NextWritten(ms, "recording_origin_utc", ClockValue(r.origin));
    ms := ms + [Member("recording_origin_utc", ClockValue(r.origin))];
    AppendKey(out, "recording");
    AppendCounts(out, r);
    out.text := out.text + ",";
    NextWritten(ms, "recording", CountsValue(r));
  }

  lemma NextWritten(ms: seq<Member>, key: string, v: Value)
    ensures Written(ms) + Quoted(key) + ":" + Dump(NO_FLOATS, v) + "," == Written(ms + [Member(key, v)])
  {
    MemberText(Written(ms), key, v);
    WrittenGrows("", ms, Member(key, v));
    assert "" + Written(ms) == Written(ms) && "" + Written(ms + [Member(key, v)]) == Written(ms + [Member(key, v)]);
  }

  method AppendTail(out: Output, r: Recording, ghost ms: seq<Member>)
    requires out.text == Written(ms)
    modifies out
    ensures out.text == Dump(NO_FLOATS, Obj(ms + [Member("samples", Arr(SampleValues(r.samples)))]))
  {
    ghost var v := Arr(SampleValues(r.samples));
    AppendKey(out, "samples");
    AppendSamples(out, r.samples);
    out.text := out.text + "}";
    InBrackets(Written(ms) + Quoted("samples") + ":", SamplesText(r.samples));
    MemberText(Written(ms), "samples", v);
    WrittenCloses("", ms, Member("samples", v));
    assert "" + Written(ms) == Written(ms);
    assert "" + Dump(NO_FLOATS, Obj(ms + [Member("samples", v)])) == Dump(NO_FLOATS, Obj(ms + [Member("samples", v)]));
  }

  lemma InBrackets(a: string, b: string)
    ensures a + "[" + b + "]" == a + ("[" + b + "]")
  {
  }

  // ---- reading it back ----

  predicate FitsAll(r: Recording) {
    && r.capacity <= U64_MAX && r.storage <= U64_MAX && |r.samples| <= U64_MAX && r.dropped <= U64_MAX
    && (r.origin.Some? ==> r.origin.value.before <= U64_MAX && r.origin.value.after <= U64_MAX)
    && forall s :: s in r.samples ==> Fits(s)
  }

  /** What a recorder hands over: room for at least one sample, and no more samples than room. */
  predicate FromRecorder(r: Recording) {
    r.capacity > 0 && r.storage > 0 && |r.samples| <= r.capacity && FitsAll(r)
  }

  lemma NumberIsCanonical(n: nat, room: nat)
    requires n <= U64_MAX
    ensures Canonical(Number(n), room) && DoubleFree(Number(n)) && AsUInt(Number(n)) == Some(n)
  {
  }

  lemma FoundAt(members: seq<Member>, key: string, i: nat)
    requires i < |members| && members[i].key == key && forall j :: 0 <= j < i ==> members[j].key != key
    ensures Find(members, key) == Some(members[i].value)
    decreases i
  {
    if i > 0 {
      FoundAt(members[1..], key, i - 1);
    }
  }

  lemma SampleMembersAreFound(s: TickSample)
    requires Fits(s)
    ensures var v := Obj(SampleMembers(s));
            && UIntMember(v, "tick_id") == Some(s.id) && UIntMember(v, "started_ns") == Some(s.started)
            && UIntMember(v, "finished_ns") == Some(s.finished)
            && StringMember(v, "outcome") == Some(OutcomeName(s.outcome))
            && MemberOf(v, "command_sweep_ended_ns")
               == Some(NumberOrNull(s.commandEnded, CommandSweepCompleted(s.outcome)))
            && MemberOf(v, "session_sweep_ended_ns")
               == Some(NumberOrNull(s.sessionEnded, SessionSweepCompleted(s.outcome)))
            && MemberOf(v, "policy_evaluate_ended_ns")
               == Some(NumberOrNull(s.policyEnded, PolicyEvaluateCompleted(s.outcome)))
  {
    var ms := SampleMembers(s);
    FoundAt(ms, "tick_id", 0);
    FoundAt(ms, "started_ns", 1);
    FoundAt(ms, "command_sweep_ended_ns", 2);
    FoundAt(ms, "session_sweep_ended_ns", 3);
    FoundAt(ms, "policy_evaluate_ended_ns", 4);
    FoundAt(ms, "finished_ns", 5);
    FoundAt(ms, "outcome", 6);
  }

  lemma EndpointReadsBack(v: Value, key: string, completed: bool, t: nat)
    requires t <= U64_MAX && MemberOf(v, key) == Some(NumberOrNull(t, completed))
    ensures EndpointOf(v, key, completed) == Some(if completed then t else 0)
  {
  }

  lemma OutcomeReadsBack(o: Outcome)
    ensures OutcomeOf(OutcomeName(o)) == Some(o)
  {
  }

  /** A sample that was written is read as itself. */
  lemma SampleReadsBack(s: TickSample)
    requires ValidSample(s) && Fits(s)
    ensures SampleOf(Obj(SampleMembers(s))) == Some(s)
  {
    var v := Obj(SampleMembers(s));
    SampleMembersAreFound(s);
    OutcomeReadsBack(s.outcome);
    EndpointReadsBack(v, "command_sweep_ended_ns", CommandSweepCompleted(s.outcome), s.commandEnded);
    EndpointReadsBack(v, "session_sweep_ended_ns", SessionSweepCompleted(s.outcome), s.sessionEnded);
    EndpointReadsBack(v, "policy_evaluate_ended_ns", PolicyEvaluateCompleted(s.outcome), s.policyEnded);
  }

  lemma {:induction false} LogReadsBack(samples: seq<TickSample>)
    requires forall s :: s in samples ==> ValidSample(s) && Fits(s)
    ensures LogOf(SampleValues(samples)) == Some(samples)
  {
    if samples != [] {
      var n := |samples| - 1;
      var front, v := SampleValues(samples[..n]), Obj(SampleMembers(samples[n]));
      LogReadsBack(samples[..n]);
      assert samples[n] in samples;
      SampleReadsBack(samples[n]);
      assert SampleValues(samples) == front + [v];
      LogSnoc(front, v);
      assert samples[..n] + [samples[n]] == samples;
    }
  }

  lemma LogSnoc(front: seq<Value>, v: Value)
    ensures var log, s := LogOf(front), SampleOf(v);
            LogOf(front + [v]) == if log.None? || s.None? then None else Some(log.value + [s.value])
  {
    assert (front + [v])[..|front|] == front;
  }

  lemma ClockReadsBack(c: Option<Clock>)
    requires ClockOk(c) && (c.Some? ==> c.value.before <= U64_MAX && c.value.after <= U64_MAX)
    ensures c.Some? ==> UIntMember(ClockValue(c), "before_unix_ns") == Some(c.value.before)
                        && UIntMember(ClockValue(c), "after_unix_ns") == Some(c.value.after)
  {
    if c.Some? {
      FoundAt(ClockValue(c).members, "before_unix_ns", 0);
      FoundAt(ClockValue(c).members, "after_unix_ns", 1);
    }
  }

  lemma CountsReadBack(r: Recording)
    requires FitsAll(r)
    ensures var v := CountsValue(r);
            && UIntMember(v, "capacity") == Some(r.capacity) && UIntMember(v, "storage_bytes") == Some(r.storage)
            && UIntMember(v, "captured") == Some(|r.samples|) && UIntMember(v, "dropped") == Some(r.dropped)
  {
    var ms := CountsValue(r).members;
    FoundAt(ms, "capacity", 0);
    FoundAt(ms, "storage_bytes", 1);
    FoundAt(ms, "captured", 2);
    FoundAt(ms, "dropped", 3);
  }

  lemma MembersAreFound(r: Recording)
    ensures var ms := RecordingMembers(r);
            && Find(ms, "schema_name") == Some(Str("ddcs.tick_profile")) && Find(ms, "schema_version") == Some(Number(1))
            && Find(ms, "time_unit") == Some(Str("ns")) && Find(ms, "run_id") == Some(Str(r.runId))
            && Find(ms, "recording_origin_utc") == Some(ClockValue(r.origin))
            && Find(ms, "recording") == Some(CountsValue(r))
            && Find(ms, "samples") == Some(Arr(SampleValues(r.samples)))
  {
    var ms := RecordingMembers(r);
    FoundAt(ms, "schema_name", 0);
    FoundAt(ms, "schema_version", 1);
    FoundAt(ms, "time_unit", 2);
    FoundAt(ms, "run_id", 3);
    FoundAt(ms, "recording_origin_utc", 4);
    FoundAt(ms, "recording", 5);
    FoundAt(ms, "samples", 6);
  }

  lemma HeaderReadsBack(r: Recording)
    requires FromRecorder(r) && r.runId != "" && ClockOk(r.origin)
    ensures HeaderOf(Obj(RecordingMembers(r))) ==
            Read(Header(r.runId, r.capacity, |r.samples|, r.dropped, r.origin), SampleValues(r.samples))
  {
    MembersAreFound(r);
    CountsReadBack(r);
    ClockReadsBack(r.origin);
    assert OriginOf(Obj(RecordingMembers(r))) == Some(r.origin);
  }

  lemma SampleIsCanonical(s: TickSample, room: nat)
    requires Fits(s) && room > 0
    ensures Canonical(Obj(SampleMembers(s)), room) && DoubleFree(Obj(SampleMembers(s)))
  {
    SampleKeysDiffer(s);
    var ms := SampleMembers(s);
    forall i | 0 <= i < |ms| ensures Canonical(ms[i].value, room - 1) && DoubleFree(ms[i].value) {
    }
  }

  lemma SampleKeysDiffer(s: TickSample)
    ensures UniqueKeys(SampleMembers(s))
  {
  }

  lemma SamplesAreCanonical(samples: seq<TickSample>, room: nat)
    requires room > 1 && forall s :: s in samples ==> Fits(s)
    ensures Canonical(Arr(SampleValues(samples)), room) && DoubleFree(Arr(SampleValues(samples)))
  {
    var vs := SampleValues(samples);
    forall v | v in vs ensures Canonical(v, room - 1) && DoubleFree(v) {
      var i :| 0 <= i < |vs| && vs[i] == v;
      assert samples[i] in samples;
      SampleIsCanonical(samples[i], room - 1);
    }
  }

  lemma ClockIsCanonical(c: Option<Clock>, room: nat)
    requires room > 0 && (c.Some? ==> c.value.before <= U64_MAX && c.value.after <= U64_MAX)
    ensures Canonical(ClockValue(c), room) && DoubleFree(ClockValue(c))
  {
  }

  lemma CountsAreCanonical(r: Recording, room: nat)
    requires room > 0 && FitsAll(r)
    ensures Canonical(CountsValue(r), room) && DoubleFree(CountsValue(r))
  {
  }

  lemma MemberIsCanonical(r: Recording, i: nat)
    requires FitsAll(r) && i < 7
    ensures Canonical(RecordingMembers(r)[i].value, MAX_DEPTH - 1) && DoubleFree(RecordingMembers(r)[i].value)
  {
    if i == 4 {
      ClockIsCanonical(r.origin, MAX_DEPTH - 1);
    } else if i == 5 {
      CountsAreCanonical(r, MAX_DEPTH - 1);
    } else if i == 6 {
      SamplesAreCanonical(r.samples, MAX_DEPTH - 1);
    }
  }

  lemma KeysDiffer(r: Recording)
    ensures UniqueKeys(RecordingMembers(r))
  {
  }

  lemma RecordingIsCanonical(r: Recording)
    requires FitsAll(r)
    ensures Canonical(Obj(RecordingMembers(r)), MAX_DEPTH) && DoubleFree(Obj(RecordingMembers(r)))
  {
    KeysDiffer(r);
    var ms := RecordingMembers(r);
    forall m | m in ms ensures Canonical(m.value, MAX_DEPTH - 1) && DoubleFree(m.value) {
      var i :| 0 <= i < |ms| && ms[i] == m;
      MemberIsCanonical(r, i);
    }
  }

  /** Without doubles the text does not depend on how doubles are written. */
  lemma {:induction false} DumpWithoutDoubles(f: Floats, g: Floats, v: Value)
    requires DoubleFree(v)
    ensures Dump(f, v) == Dump(g, v)
    decreases v, 1
  {
    match v
    case Arr(elements) => ElementsWithoutDoubles(f, g, elements);
    case Obj(members) => MembersWithoutDoubles(f, g, members);
    case _ =>
  }

  lemma {:induction false} ElementsWithoutDoubles(f: Floats, g: Floats, vs: seq<Value>)
    requires forall e :: e in vs ==> DoubleFree(e)
    ensures DumpElements(f, vs) == DumpElements(g, vs)
    decreases vs, 0
  {
    if vs != [] {
      assert vs[0] in vs;
      DumpWithoutDoubles(f, g, vs[0]);
      ElementsWithoutDoubles(f, g, vs[1..]);
    }
  }

  lemma {:induction false} MembersWithoutDoubles(f: Floats, g: Floats, ms: seq<Member>)
    requires forall m :: m in ms ==> DoubleFree(m.value)
    ensures DumpMembers(f, ms) == DumpMembers(g, ms)
    decreases ms, 0
  {
    if ms != [] {
      assert ms[0] in ms;
      DumpWithoutDoubles(f, g, ms[0].value);
      MembersWithoutDoubles(f, g, ms[1..]);
    }
  }

  /** Whatever a recorder hands over, the text that is written for it is read back as the same header and samples. */
  lemma SerializedIsRead(f: Floats, r: Recording)
    requires FromRecorder(r) && r.runId != "" && ClockOk(r.origin) && forall s :: s in r.samples ==> ValidSample(s)
    ensures var root := Obj(RecordingMembers(r));
            && Parse(f, Dump(NO_FLOATS, root)) == Some(root)
            && HeaderOf(root) == Read(Header(r.runId, r.capacity, |r.samples|, r.dropped, r.origin),
                                      SampleValues(r.samples))
            && LogOf(SampleValues(r.samples)) == Some(r.samples)
  {
    var root := Obj(RecordingMembers(r));
    RecordingIsCanonical(r);
    DumpWithoutDoubles(f, NO_FLOATS, root);
    RoundTrip(f, root);
    HeaderReadsBack(r);
    LogReadsBack(r.samples);
  }
}
