/** Reading a recording's JSON: the header and each sample. */
module Recordings {
  import opened Basics
  import opened JsonValues
  import opened JsonRoundTrip
  import opened TickSamples

  /** A member of an object; nothing else has members. */
  function MemberOf(v: Value, key: string): Option<Value> {
    if v.Obj? then Find(v.members, key) else None
  }

  function AsUInt(v: Value): Option<nat> {
    match v
    case UInt(u) => Some(u)
    case Int(i) => if i >= 0 then Some(i) else None
    case _ => None
  }

  function UIntMember(v: Value, key: string): Option<nat> {
    var m := MemberOf(v, key);
    if m.None? then None else AsUInt(m.value)
  }

  function StringMember(v: Value, key: string): Option<string> {
    var m := MemberOf(v, key);
    if m.None? || !m.value.Str? then None else Some(m.value.s)
  }

  function OutcomeOf(text: string): Option<Outcome> {
    if text == "completed" then Some(Completed)
    else if text == "command_sweep_threw" then Some(CommandSweepThrew)
    else if text == "session_sweep_threw" then Some(SessionSweepThrew)
    else if text == "policy_evaluate_threw" then Some(PolicyEvaluateThrew)
    else None
  }

  /** The end of a phase: a time if the phase completed, otherwise null, which stands for 0. */
  function EndpointOf(v: Value, key: string, completed: bool): Option<nat> {
    var m := MemberOf(v, key);
    if m.None? then None
    else if !completed then (if m.value.Null? then Some(0) else None)
    else AsUInt(m.value)
  }

  function SampleOf(v: Value): (r: Option<TickSample>)
    ensures r.Some? ==> ValidSample(r.value)
  {
    var id, started, finished := UIntMember(v, "tick_id"), UIntMember(v, "started_ns"), UIntMember(v, "finished_ns");
    var text := StringMember(v, "outcome");
    if id.None? || started.None? || finished.None? || text.None? || OutcomeOf(text.value).None? then None
    else
      var o := OutcomeOf(text.value).value;
      var c := EndpointOf(v, "command_sweep_ended_ns", CommandSweepCompleted(o));
      var s := EndpointOf(v, "session_sweep_ended_ns", SessionSweepCompleted(o));
      var p := EndpointOf(v, "policy_evaluate_ended_ns", PolicyEvaluateCompleted(o));
      if c.None? || s.None? || p.None? then None
      else
        var sample := TickSample(id.value, started.value, c.value, s.value, p.value, finished.value, o);
        if ValidSample(sample) then Some(sample) else None
  }

  /** The log of an array of samples, if all of them are samples. */
  function LogOf(elements: seq<Value>): Option<seq<TickSample>> {
    if elements == [] then Some([])
    else
      var front, last := LogOf(elements[..|elements| - 1]), SampleOf(elements[|elements| - 1]);
      if front.None? || last.None? then None else Some(front.value + [last.value])
  }

  // ---- 64-bit fields ----

  predicate Fits(s: TickSample) {
    && s.id <= U64_MAX && s.started <= U64_MAX && s.commandEnded <= U64_MAX
    && s.sessionEnded <= U64_MAX && s.policyEnded <= U64_MAX && s.finished <= U64_MAX
  }

  lemma {:induction false} FoundIsCanonical(members: seq<Member>, key: string, room: nat)
    requires forall m :: m in members ==> Canonical(m.value, room)
    ensures Find(members, key).Some? ==> Canonical(Find(members, key).value, room)
  {
    if members != [] && members[0].key != key {
      assert forall m :: m in members[1..] ==> m in members;
      FoundIsCanonical(members[1..], key, room);
    }
  }

  lemma UIntFits(v: Value, key: string, room: nat)
    requires Canonical(v, room)
    ensures UIntMember(v, key).Some? ==> UIntMember(v, key).value <= U64_MAX
    ensures forall completed :: EndpointOf(v, key, completed).Some? ==> EndpointOf(v, key, completed).value <= U64_MAX
  {
    if v.Obj? {
      FoundIsCanonical(v.members, key, room - 1);
    }
  }

  /** Every number a parsed sample holds is a 64-bit number. */
  lemma SampleFits(v: Value, room: nat)
    requires Canonical(v, room) && SampleOf(v).Some?
    ensures Fits(SampleOf(v).value)
  {
    UIntFits(v, "tick_id", room);
    UIntFits(v, "started_ns", room);
    UIntFits(v, "finished_ns", room);
    UIntFits(v, "command_sweep_ended_ns", room);
    UIntFits(v, "session_sweep_ended_ns", room);
    UIntFits(v, "policy_evaluate_ended_ns", room);
  }

  // ---- the header ----

  datatype Clock = Clock(before: nat, after: nat)

  datatype Header = Header(runId: string, capacity: nat, captured: nat, dropped: nat, origin: Option<Clock>)

  datatype HeaderResult = Read(header: Header, samples: seq<Value>) | Unsupported | Malformed

  /** An absent or null bracket is fine, a malformed one is not. */
  function OriginOf(root: Value): Option<Option<Clock>> {
    var origin := MemberOf(root, "recording_origin_utc");
    if origin.None? || origin.value.Null? then Some(None)
    else
      var before, after := UIntMember(origin.value, "before_unix_ns"), UIntMember(origin.value, "after_unix_ns");
      if before.None? || after.None? || before.value > after.value then None
      else Some(Some(Clock(before.value, after.value)))
  }

  predicate SupportedSchema(root: Value) {
    && StringMember(root, "schema_name") == Some("ddcs.tick_profile")
    && UIntMember(root, "schema_version") == Some(1)
    && StringMember(root, "time_unit") == Some("ns")
  }

  function HeaderOf(root: Value): HeaderResult {
    if !root.Obj? then Malformed
    else if !SupportedSchema(root) then Unsupported
    else
      var runId, recording := StringMember(root, "run_id"), MemberOf(root, "recording");
      var samples := MemberOf(root, "samples");
      if runId.None? || runId.value == "" || recording.None? || !recording.value.Obj? || samples.None?
         || !samples.value.Arr? then Malformed
      else
        var capacity, storage := UIntMember(recording.value, "capacity"), UIntMember(recording.value, "storage_bytes");
        var captured, dropped := UIntMember(recording.value, "captured"), UIntMember(recording.value, "dropped");
        if capacity.None? || storage.None? || captured.None? || dropped.None? then Malformed
        else if capacity.value == 0 || storage.value == 0 || captured.value > capacity.value
                || captured.value != |samples.value.elements| then Malformed
        else
          var origin := OriginOf(root);
          if origin.None? then Malformed
          else Read(Header(runId.value, capacity.value, captured.value, dropped.value, origin.value),
                    samples.value.elements)
  }

  /** A header that is read fits its samples and is of the one supported schema. */
  lemma ReadHeaderIsConsistent(root: Value)
    requires HeaderOf(root).Read?
    ensures StringMember(root, "schema_name") == Some("ddcs.tick_profile")
    ensures UIntMember(root, "schema_version") == Some(1) && StringMember(root, "time_unit") == Some("ns")
    ensures var (h, samples) := (HeaderOf(root).header, HeaderOf(root).samples);
            && h.runId != "" && h.captured == |samples| && h.captured <= h.capacity && h.capacity > 0
            && (h.origin.Some? ==> h.origin.value.before <= h.origin.value.after)
  {
  }

  lemma SamplesAreCanonical(root: Value, room: nat)
    requires Canonical(root, room) && HeaderOf(root).Read?
    ensures room >= 2 && forall e :: e in HeaderOf(root).samples ==> Canonical(e, room - 2)
  {
    FoundIsCanonical(root.members, "samples", room - 1);
    var samples := Find(root.members, "samples").value;
    assert Canonical(samples, room - 1);
  }
}
