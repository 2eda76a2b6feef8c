/** The response side: the catalogue of enforcement actions, the audit log
    writer, the manual response endpoint and the automatic zero-trust
    policy that turns a risk score into actions. */
module Respond {
  import opened Wrappers
  import opened Events

  // ---------------- Action catalogue ----------------

  const EnforceMfa: string := "enforce_mfa"
  const IsolateEndpoint: string := "isolate_endpoint"
  const BlockIp: string := "block_ip"
  const LogOnly: string := "log_only"

  const MfaNote: string := "IdP challenge issued"
  const IsolateNote: string := "EDR isolation command sent"
  const BlockNote: string := "Firewall rule pushed"
  const CustomNote: string := "custom action"

  /** The known enforcement actions and the note each one is logged with. */
  const Actions: map<string, string> :=
    map[EnforceMfa := MfaNote, IsolateEndpoint := IsolateNote, BlockIp := BlockNote]

  /** The note a manual response logs for `action`. */
  function NoteFor(action: string): (note: string)
    ensures note in Actions.Values || note == CustomNote
    ensures action in Actions <==> note != CustomNote
  {
    if action in Actions then Actions[action] else CustomNote
  }

  /** Each catalogued action has its own note; any other action string,
      including the empty one, is logged as a custom action. */
  lemma NoteForSpec(action: string)
    ensures action == EnforceMfa ==> NoteFor(action) == MfaNote
    ensures action == IsolateEndpoint ==> NoteFor(action) == IsolateNote
    ensures action == BlockIp ==> NoteFor(action) == BlockNote
    ensures action != EnforceMfa && action != IsolateEndpoint && action != BlockIp ==>
      NoteFor(action) == CustomNote
  {
  }

  // ---------------- Audit log writer ----------------

  /** Appends one record, stamped with the clock value `now`, to the shared log. */
  method LogAction(log: ActionLog, eventId: int, action: string, note: string, now: real)
    modifies log
    ensures log.entries == old(log.entries) + [ActionRecord(now, eventId, action, note)]
  {
    log.entries := log.entries + [ActionRecord(now, eventId, action, note)];
  }

  // ---------------- Request fields ----------------

  /** A field of a request body: absent, present and converting to T, or
      present with a value whose conversion (int() or float()) raises. */
  datatype Field<T> = Absent | Given(value: T) | Unconvertible

  /** The converted field, the default when it is absent, None when the
      conversion raises. */
  function FieldOr<T>(f: Field<T>, default: T): (o: Option<T>)
    ensures o.None? <==> f.Unconvertible?
    ensures f.Absent? ==> o == Some(default)
    ensures f.Given? ==> o == Some(f.value)
  {
    match f
    case Absent => Some(default)
    case Given(v) => Some(v)
    case Unconvertible => None
  }

  // ---------------- Manual response ----------------

  datatype ManualReply = ManualReply(eventId: int, action: string)

  /** POST /respond: logs the requested action against the event with the
      catalogue's note, or "custom action" for an unknown action. The event
      id defaults to 0 and the action to the empty string; an id that does
      not convert fails the request before anything is logged. */
  method RespondManual(log: ActionLog, eventId: Field<int>, action: Option<string>, now: real)
    returns (reply: Option<ManualReply>)
    modifies log
    ensures reply.None? <==> eventId.Unconvertible?
    ensures reply.None? ==> log.entries == old(log.entries)
    ensures reply.Some? ==>
      reply.value.eventId == (if eventId.Given? then eventId.value else 0) &&
      reply.value.action == (if action.Some? then action.value else "")
    ensures reply.Some? ==>
      log.entries == old(log.entries) +
        [ActionRecord(now, reply.value.eventId, reply.value.action, NoteFor(reply.value.action))]
  {
    var id := FieldOr(eventId, 0);
    if id.None? {
      return None;
    }
    var act := if action.Some? then action.value else "";
    var note := NoteFor(act);
    LogAction(log, id.value, act, note, now);
    reply := Some(ManualReply(id.value, act));
  }

  // ---------------- Automatic policy ----------------

  const HighRisk: real := 90.0
  const ElevatedRisk: real := 75.0

  const HighNote: string := "Auto: high risk (>=90)"
  const ElevatedNote: string := "Auto: risk >=75"
  const LowNote: string := "Auto: benign/pending"

  /** One action the automatic policy logs, with its note. */
  datatype Step = Step(action: string, note: string)

  /** The actions the automatic policy takes for a risk score, in the order
      it logs them. */
  function AutoPolicy(risk: real): (steps: seq<Step>)
    ensures |steps| == 1 || |steps| == 3
  {
    if risk >= HighRisk then
      [Step(IsolateEndpoint, HighNote), Step(BlockIp, HighNote), Step(EnforceMfa, HighNote)]
    else if risk >= ElevatedRisk then
      [Step(EnforceMfa, ElevatedNote)]
    else
      [Step(LogOnly, LowNote)]
  }

  /** The log records of steps[k..] taken against one event, step i stamped
      with the clock's i-th reading, as one logging call per step does. */
  function Records(eventId: int, clock: Clock, steps: seq<Step>, k: nat): (rs: seq<ActionRecord>)
    requires k <= |steps|
    ensures |rs| == |steps| - k
    ensures forall i :: 0 <= i < |rs| ==>
      rs[i] == ActionRecord(clock(k + i), eventId, steps[k + i].action, steps[k + i].note)
    decreases |steps| - k
  {
    if k == |steps| then []
    else [ActionRecord(clock(k), eventId, steps[k].action, steps[k].note)] + Records(eventId, clock, steps, k + 1)
  }

  /** The policy's three tiers: at or above 90 the endpoint is isolated, the
      address blocked and MFA enforced, in that order; from 75 up to 90 only
      MFA is enforced; below 75 the event is only logged. */
  lemma AutoPolicyTiers(risk: real)
    ensures risk >= HighRisk <==> |AutoPolicy(risk)| == 3
    ensures risk >= HighRisk ==>
      AutoPolicy(risk)[0].action == IsolateEndpoint &&
      AutoPolicy(risk)[1].action == BlockIp &&
      AutoPolicy(risk)[2].action == EnforceMfa
    ensures risk >= HighRisk ==> forall i :: 0 <= i < 3 ==> AutoPolicy(risk)[i].note == HighNote
    ensures ElevatedRisk <= risk < HighRisk ==> AutoPolicy(risk) == [Step(EnforceMfa, ElevatedNote)]
    ensures risk < ElevatedRisk <==> AutoPolicy(risk) == [Step(LogOnly, LowNote)]
  {
  }

  /** Every action the policy takes is a catalogued action or log_only. */
  lemma AutoPolicyActionsKnown(risk: real)
    ensures forall i :: 0 <= i < |AutoPolicy(risk)| ==>
      AutoPolicy(risk)[i].action in Actions || AutoPolicy(risk)[i].action == LogOnly
  {
  }

  /** The policy agrees with the verdict classifier: an event classified
      anomalous always gets MFA enforced (as its last action), and any other
      event is only logged. */
  lemma AutoPolicyMatchesVerdict(risk: real)
    ensures Classify(risk) == Anomalous <==>
      AutoPolicy(risk)[|AutoPolicy(risk)| - 1].action == EnforceMfa
    ensures Classify(risk) != Anomalous <==> AutoPolicy(risk) == [Step(LogOnly, LowNote)]
  {
  }

  /** The enforcement actions the policy takes for a score. */
  function Enforced(risk: real): set<string>
  {
    set i | 0 <= i < |AutoPolicy(risk)| && AutoPolicy(risk)[i].action in Actions :: AutoPolicy(risk)[i].action
  }

  /** A higher score never takes fewer enforcement actions. */
  lemma EnforcedMonotone(r1: real, r2: real)
    requires r1 <= r2
    ensures Enforced(r1) <= Enforced(r2)
  {
    if r1 >= HighRisk {
      assert AutoPolicy(r1) == AutoPolicy(r2);
    } else {
      forall a | a in Enforced(r1)
        ensures a in Enforced(r2)
      {
        var i :| 0 <= i < |AutoPolicy(r1)| && AutoPolicy(r1)[i].action in Actions && AutoPolicy(r1)[i].action == a;
        assert AutoPolicy(r1) == [Step(EnforceMfa, ElevatedNote)];
        var last := |AutoPolicy(r2)| - 1;
        assert AutoPolicy(r2)[last].action == EnforceMfa;
      }
    }
  }

  datatype AutoReply = AutoReply(eventId: int, risk: real)

  /** POST /respond/auto: reads the event's risk (default 0.0) and id
      (default 0), then logs the policy's actions for that risk against the
      event, each stamped with its own clock reading. A field that does not
      convert fails the request before anything is logged. */
  method RespondAuto(log: ActionLog, risk: Field<real>, eventId: Field<int>, clock: Clock)
    returns (reply: Option<AutoReply>)
    modifies log
    ensures reply.None? <==> risk.Unconvertible? || eventId.Unconvertible?
    ensures reply.None? ==> log.entries == old(log.entries)
    ensures reply.Some? ==>
      reply.value.risk == (if risk.Given? then risk.value else 0.0) &&
      reply.value.eventId == (if eventId.Given? then eventId.value else 0)
    ensures reply.Some? ==>
      log.entries == old(log.entries) + Records(reply.value.eventId, clock, AutoPolicy(reply.value.risk), 0)
  {
    var r := FieldOr(risk, 0.0);
    if r.None? {
      return None;
    }
    var eid := FieldOr(eventId, 0);
    if eid.None? {
      return None;
    }
    var x := r.value;
    var id := eid.value;
    if x >= HighRisk {
      LogAction(log, id, IsolateEndpoint, HighNote, clock(0));
      LogAction(log, id, BlockIp, HighNote, clock(1));
      LogAction(log, id, EnforceMfa, HighNote, clock(2));
    } else if x >= ElevatedRisk {
      LogAction(log, id, EnforceMfa, ElevatedNote, clock(0));
    } else {
      LogAction(log, id, LogOnly, LowNote, clock(0));
    }
    reply := Some(AutoReply(id, x));
  }

  /** Every record an automatic response appends names the same event, and
      the i-th one carries the i-th clock reading. */
  lemma AutoRecordsShareEvent(eventId: int, clock: Clock, risk: real)
    ensures forall i :: 0 <= i < |Records(eventId, clock, AutoPolicy(risk), 0)| ==>
      Records(eventId, clock, AutoPolicy(risk), 0)[i].eventId == eventId &&
      Records(eventId, clock, AutoPolicy(risk), 0)[i].ts == clock(i)
  {
  }
}
