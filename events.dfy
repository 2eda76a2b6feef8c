/** Event bookkeeping: verdicts, feature extraction from SIEM rows, the id
    counter, the event store with its ingestion loop and listing, and the
    shared action log. */
module Events {
  import opened Wrappers
  import opened Ueba

  // ---------------- Verdicts ----------------

  datatype Verdict = Pending | Benign | Anomalous

  const AnomalousFrom: real := 75.0
  const BenignUpTo: real := 40.0

  /** The verdict of a risk score; a boundary value takes the stricter class. */
  function Classify(risk: real): (v: Verdict)
    ensures v == Anomalous <==> risk >= AnomalousFrom
    ensures v == Benign <==> risk <= BenignUpTo
    ensures v == Pending <==> BenignUpTo < risk < AnomalousFrom
  {
    if risk >= AnomalousFrom then Anomalous else if risk <= BenignUpTo then Benign else Pending
  }

  function Severity(v: Verdict): nat
  {
    match v
    case Benign => 0
    case Pending => 1
    case Anomalous => 2
  }

  /** A higher risk never gets a milder verdict. */
  lemma ClassifyMonotone(r1: real, r2: real)
    requires r1 <= r2
    ensures Severity(Classify(r1)) <= Severity(Classify(r2))
  {
  }

  // ---------------- Events and rows ----------------

  datatype Event = Event(
    id: int,
    timestamp: real,
    source: string,
    user: string,
    device: string,
    eventType: string,
    details: string,
    features: FeatureVector,
    risk: real,
    verdict: Verdict)

  /** A value of a SIEM row, seen through the two conversions the ingestion
      applies to it: its text form and its float form (None when the float
      conversion raises). */
  datatype Value = Value(text: string, number: Option<real>)

  type Row = map<string, Value>

  /** The feature keys of a row, in schema order, and their defaults. */
  const SessionDurationKey: string := "session_duration"
  const FailedLoginsKey: string := "failed_logins"
  const AccessHourKey: string := "access_hour"
  const DeviceTrustKey: string := "device_trust"
  const PrivilegeChangeKey: string := "privilege_change"
  const ExternalConnKey: string := "external_conn"
  const MfaBypassKey: string := "mfa_bypass"

  const FeatureKeys: seq<string> :=
    [SessionDurationKey, FailedLoginsKey, AccessHourKey, DeviceTrustKey,
     PrivilegeChangeKey, ExternalConnKey, MfaBypassKey]
  const FeatureDefaults: seq<real> := [5.0, 0.0, 12.0, 0.8, 0.0, 1.0, 0.0]

  const DefaultFeatures: FeatureVector :=
    FeatureVector(FeatureDefaults[0], FeatureDefaults[1], FeatureDefaults[2], FeatureDefaults[3],
                  FeatureDefaults[4], FeatureDefaults[5], FeatureDefaults[6])

  /** The float form of the row's value for key, or default when the key is
      absent; None when the present value does not convert. */
  function NumberField(r: Row, key: string, default: real): Option<real>
  {
    if key in r then r[key].number else Some(default)
  }

  /** The text form of the row's value for key, else for alternative, else
      default. */
  function TextField(r: Row, key: string, alternative: string, default: string): (t: string)
    ensures key in r ==> t == r[key].text
    ensures key !in r && alternative in r ==> t == r[alternative].text
    ensures key !in r && alternative !in r ==> t == default
  {
    if key in r then r[key].text
    else if alternative in r then r[alternative].text
    else default
  }

  /** The values of the feature keys k.. of a row, absent keys taking their
      defaults; None when a present value does not convert. */
  function ExtractValues(r: Row, k: nat): (vals: Option<seq<real>>)
    requires k <= Dim
    ensures vals.Some? ==> |vals.value| == Dim - k
    decreases Dim - k
  {
    if k == Dim then Some([])
    else
      match NumberField(r, FeatureKeys[k], FeatureDefaults[k])
      case None => None
      case Some(x) =>
        match ExtractValues(r, k + 1)
        case None => None
        case Some(rest) => Some([x] + rest)
  }

  /** The seven features of a row, absent keys taking their defaults; None
      when a present value does not convert. */
  function ExtractFeatures(r: Row): (f: Option<FeatureVector>)
    ensures f.Some? <==> ExtractValues(r, 0).Some?
    ensures f.Some? ==> f.value.Values() == ExtractValues(r, 0).value
  {
    match ExtractValues(r, 0)
    case None => None
    case Some(v) => Some(FeatureVector(v[0], v[1], v[2], v[3], v[4], v[5], v[6]))
  }

  lemma {:induction false} ExtractValuesSpec(r: Row, k: nat)
    requires k <= Dim
    ensures ExtractValues(r, k).Some? <==>
      forall j :: k <= j < Dim && FeatureKeys[j] in r ==> r[FeatureKeys[j]].number.Some?
    ensures ExtractValues(r, k).Some? ==> forall j :: k <= j < Dim ==>
      ExtractValues(r, k).value[j - k] ==
        if FeatureKeys[j] in r then r[FeatureKeys[j]].number.value else FeatureDefaults[j]
    decreases Dim - k
  {
    if k < Dim {
      ExtractValuesSpec(r, k + 1);
      var vals := ExtractValues(r, k);
      if vals.Some? {
        var x := NumberField(r, FeatureKeys[k], FeatureDefaults[k]).value;
        var rest := ExtractValues(r, k + 1).value;
        assert vals.value == [x] + rest;
        forall j | k < j < Dim
          ensures vals.value[j - k] ==
            if FeatureKeys[j] in r then r[FeatureKeys[j]].number.value else FeatureDefaults[j]
        {
          assert vals.value[j - k] == rest[j - (k + 1)];
        }
      }
    }
  }

  /** Extraction succeeds exactly when every feature key present in the row
      converts; then feature k is the row's value for key k when present and
      default k otherwise. */
  lemma ExtractFeaturesSpec(r: Row)
    ensures ExtractFeatures(r).Some? <==>
      forall k :: 0 <= k < Dim && FeatureKeys[k] in r ==> r[FeatureKeys[k]].number.Some?
    ensures ExtractFeatures(r).Some? ==> forall k :: 0 <= k < Dim ==>
      ExtractFeatures(r).value.Values()[k] ==
        if FeatureKeys[k] in r then r[FeatureKeys[k]].number.value else FeatureDefaults[k]
  {
    ExtractValuesSpec(r, 0);
    var f := ExtractFeatures(r);
    if f.Some? {
      assert f.value.Values() == ExtractValues(r, 0).value;
    }
  }

  /** A row without any feature key extracts to the defaults in FeatureDefaults. */
  lemma ExtractFromBareRow(r: Row)
    requires forall k :: 0 <= k < Dim ==> FeatureKeys[k] !in r
    ensures ExtractFeatures(r) == Some(DefaultFeatures)
  {
    ExtractFeaturesSpec(r);
    var f := ExtractFeatures(r);
    assert f.Some?;
    assert f.value.Values() == DefaultFeatures.Values();
  }

  /** Keys other than the seven feature keys do not influence extraction. */
  lemma ExtractDependsOnlyOnFeatureKeys(r1: Row, r2: Row)
    requires forall k :: 0 <= k < Dim ==>
      (FeatureKeys[k] in r1 <==> FeatureKeys[k] in r2) &&
      (FeatureKeys[k] in r1 ==> r1[FeatureKeys[k]].number == r2[FeatureKeys[k]].number)
    ensures ExtractFeatures(r1) == ExtractFeatures(r2)
  {
    ExtractFeaturesSpec(r1);
    ExtractFeaturesSpec(r2);
    var f1, f2 := ExtractFeatures(r1), ExtractFeatures(r2);
    if f1.Some? && f2.Some? {
      assert f1.value.Values() == f2.value.Values();
    }
  }

  // Keys and defaults of the event's other fields.
  const TimestampKey: string := "timestamp"
  const UsernameKey: string := "username"
  const UserKey: string := "user"
  const Unknown: string := "unknown"
  const HostnameKey: string := "hostname"
  const DeviceKey: string := "device"
  const EventTypeKey: string := "event_type"
  const NameKey: string := "name"
  const GenericEventType: string := "event"
  const DetailsKey: string := "details"
  const MessageKey: string := "message"

  /** The event built from a row whose features extracted, with the id the
      counter handed out; None when the timestamp does not convert. */
  function MakeEvent(r: Row, feats: FeatureVector, id: int, source: string, now: real): (e: Option<Event>)
    ensures e.Some? <==> NumberField(r, TimestampKey, now).Some?
    ensures TimestampKey !in r ==> e.Some? && e.value.timestamp == now
    ensures e.Some? ==>
      e.value.id == id && e.value.timestamp == NumberField(r, TimestampKey, now).value &&
      e.value.source == source && e.value.features == feats &&
      e.value.risk == 0.0 && e.value.verdict == Pending
    ensures e.Some? ==>
      e.value.user == TextField(r, UsernameKey, UserKey, Unknown) &&
      e.value.device == TextField(r, HostnameKey, DeviceKey, Unknown) &&
      e.value.eventType == TextField(r, EventTypeKey, NameKey, GenericEventType) &&
      e.value.details == TextField(r, DetailsKey, MessageKey, "")
  {
    match NumberField(r, TimestampKey, now)
    case None => None
    case Some(ts) =>
      Some(Event(id, ts, source,
                 TextField(r, UsernameKey, UserKey, Unknown),
                 TextField(r, HostnameKey, DeviceKey, Unknown),
                 TextField(r, EventTypeKey, NameKey, GenericEventType),
                 TextField(r, DetailsKey, MessageKey, ""),
                 feats, 0.0, Pending))
  }

  /** The event (before scoring) a row converts to with the given id; None
      when its features or its timestamp do not convert. */
  function RowEvent(r: Row, id: int, source: string, now: real): (e: Option<Event>)
    ensures e.Some? <==> ExtractFeatures(r).Some? && NumberField(r, TimestampKey, now).Some?
    ensures e.Some? ==> e.value.id == id && e.value.features == ExtractFeatures(r).value
  {
    match ExtractFeatures(r)
    case None => None
    case Some(feats) => MakeEvent(r, feats, id, source, now)
  }

  /** Number of ids the ingestion of rows draws: one per row whose features
      extract, whether or not its timestamp converts. */
  function IdsDrawn(rows: seq<Row>): (n: nat)
    ensures n <= |rows|
  {
    if rows == [] then 0
    else IdsDrawn(rows[..|rows| - 1]) + (if ExtractFeatures(rows[|rows| - 1]).Some? then 1 else 0)
  }

  /** The successive readings of the wall clock during one request:
      clock(k) is the k-th time the request reads it. */
  type Clock = nat -> real

  /** The events (before scoring) that ingesting rows creates, when the
      counter starts at firstId. Every row whose features extract reads the
      clock once, right after drawing its id (the default of its timestamp
      is evaluated whether or not the row has one), so the row drawing the
      k-th id sees clock(k). */
  function Ingested(rows: seq<Row>, firstId: int, source: string, clock: Clock): (evs: seq<Event>)
  {
    if rows == [] then []
    else
      var init := rows[..|rows| - 1];
      var prior := Ingested(init, firstId, source, clock);
      match RowEvent(rows[|rows| - 1], firstId + IdsDrawn(init), source, clock(IdsDrawn(init)))
      case None => prior
      case Some(e) => prior + [e]
  }

  /** One more row extends the ingestion by what that row alone yields. */
  lemma IngestedStep(rows: seq<Row>, i: nat, firstId: int, id: int, source: string, clock: Clock, now: real)
    requires i < |rows| && id == firstId + IdsDrawn(rows[..i]) && now == clock(IdsDrawn(rows[..i]))
    ensures IdsDrawn(rows[..i + 1]) ==
      IdsDrawn(rows[..i]) + (if ExtractFeatures(rows[i]).Some? then 1 else 0)
    ensures RowEvent(rows[i], id, source, now).None? ==>
      Ingested(rows[..i + 1], firstId, source, clock) == Ingested(rows[..i], firstId, source, clock)
    ensures RowEvent(rows[i], id, source, now).Some? ==>
      Ingested(rows[..i + 1], firstId, source, clock) ==
        Ingested(rows[..i], firstId, source, clock) + [RowEvent(rows[i], id, source, now).value]
  {
    assert rows[..i + 1][..i] == rows[..i];
    assert rows[..i + 1][i] == rows[i];
  }

  /** Ingestion creates at most one event per drawn id, with strictly increasing
      ids inside the range the counter handed out. */
  lemma {:induction false} IngestedIds(rows: seq<Row>, firstId: int, source: string, clock: Clock)
    ensures |Ingested(rows, firstId, source, clock)| <= IdsDrawn(rows)
    ensures forall i :: 0 <= i < |Ingested(rows, firstId, source, clock)| ==>
      firstId <= Ingested(rows, firstId, source, clock)[i].id < firstId + IdsDrawn(rows)
    ensures forall i, j :: 0 <= i < j < |Ingested(rows, firstId, source, clock)| ==>
      Ingested(rows, firstId, source, clock)[i].id < Ingested(rows, firstId, source, clock)[j].id
  {
    if rows != [] {
      IngestedIds(rows[..|rows| - 1], firstId, source, clock);
    }
  }

  /** A row whose features extract but whose timestamp does not still draws
      an id, so the next good row's event skips it. */
  lemma TimestampFailureLeavesGap(bad: Row, good: Row, firstId: int, source: string, clock: Clock)
    requires ExtractFeatures(bad).Some? && NumberField(bad, TimestampKey, clock(0)) == None
    requires ExtractFeatures(good).Some? && NumberField(good, TimestampKey, clock(1)).Some?
    ensures |Ingested([bad, good], firstId, source, clock)| == 1
    ensures Ingested([bad, good], firstId, source, clock)[0].id == firstId + 1
  {
    assert [bad, good][..1] == [bad];
    assert [bad][..0] == [];
    assert IdsDrawn([bad]) == 1;
    assert Ingested([bad], firstId, source, clock) == [];
  }

  /** Two rows without a timestamp whose features extract become two events,
      each stamped with its own clock reading, in order. */
  lemma UnstampedRowsReadTheClock(r1: Row, r2: Row, firstId: int, source: string, clock: Clock)
    requires ExtractFeatures(r1).Some? && TimestampKey !in r1
    requires ExtractFeatures(r2).Some? && TimestampKey !in r2
    ensures |Ingested([r1, r2], firstId, source, clock)| == 2
    ensures Ingested([r1, r2], firstId, source, clock)[0].timestamp == clock(0)
    ensures Ingested([r1, r2], firstId, source, clock)[1].timestamp == clock(1)
    ensures Ingested([r1, r2], firstId, source, clock)[0].id == firstId
    ensures Ingested([r1, r2], firstId, source, clock)[1].id == firstId + 1
  {
    assert [r1, r2][..1] == [r1];
    assert [r1][..0] == [];
    assert IdsDrawn([r1]) == 1;
    assert Ingested([r1], firstId, source, clock) == [RowEvent(r1, firstId, source, clock(0)).value];
  }

  /** An event with its score cleared back to the constructor defaults. */
  function Unscored(e: Event): Event
  {
    e.(risk := 0.0, verdict := Pending)
  }

  function UnscoredAll(es: seq<Event>): (r: seq<Event>)
    ensures |r| == |es|
  {
    if es == [] then [] else UnscoredAll(es[..|es| - 1]) + [Unscored(es[|es| - 1])]
  }

  /** The observations the scorer records for es, in order. */
  function Observations(es: seq<Event>): (obs: Baseline)
    ensures |obs| == |es| && WellFormed(obs)
  {
    if es == [] then [] else Observations(es[..|es| - 1]) + [es[|es| - 1].features.Values()]
  }

  /** An event's risk is a valid score and its verdict is that score's class. */
  predicate Scored(e: Event)
  {
    0.0 <= e.risk <= 100.0 && e.verdict == Classify(e.risk)
  }

  ghost predicate AllScored(es: seq<Event>)
  {
    forall m :: 0 <= m < |es| ==> Scored(es[m])
  }

  // Dafny knows this step; stating it as a lemma called at one point keeps
  // the solver's work on the ingestion loop small.

  lemma AllScoredStep(es: seq<Event>, e: Event)
    requires AllScored(es) && Scored(e)
    ensures AllScored(es + [e])
  {
  }

  /** The ingestion loop's state after the first i rows: the events
      appended so far are those rows' events, scored, the counter has drawn
      their ids and the scorer has recorded their features. */
  ghost predicate IngestProgress(rows: seq<Row>, i: nat, firstId: int, source: string, clock: Clock,
                                 appended: seq<Event>, id: int, before: Baseline, baseline: Baseline)
    requires i <= |rows|
  {
    UnscoredAll(appended) == Ingested(rows[..i], firstId, source, clock) &&
    id == firstId + IdsDrawn(rows[..i]) &&
    baseline == before + Observations(appended) &&
    AllScored(appended)
  }

  /** One pass of the ingestion loop, as IngestRow specifies it, keeps IngestProgress. */
  lemma IngestProgressStep(rows: seq<Row>, i: nat, firstId: int, source: string, clock: Clock,
                           appended: seq<Event>, id: int, drawn: nat, now: real, before: Baseline, baseline: Baseline,
                           e: Option<Event>, id': int, baseline': Baseline)
    requires i < |rows| && id == firstId + drawn
    requires IngestProgress(rows, i, firstId, source, clock, appended, id, before, baseline)
    requires id' == id + (if ExtractFeatures(rows[i]).Some? then 1 else 0)
    requires now == clock(drawn)
    requires e.Some? <==> RowEvent(rows[i], id, source, now).Some?
    requires e.Some? ==> Unscored(e.value) == RowEvent(rows[i], id, source, now).value && Scored(e.value)
    requires baseline' == baseline + (if e.Some? then [e.value.features.Values()] else [])
    ensures IngestProgress(rows, i + 1, firstId, source, clock,
                           appended + (if e.Some? then [e.value] else []), id', before, baseline')
  {
    IngestedStep(rows, i, firstId, id, source, clock, now);
    if e.Some? {
      ObservationsAppend(appended, e.value);
      AppendAssociative(before, Observations(appended), e.value.features.Values());
      UnscoredAllAppend(appended, e.value);
      AllScoredStep(appended, e.value);
    } else {
      assert appended + [] == appended;
    }
  }

  /** r is a rescoring of the first |r| events of orig: the same events
      with a valid risk and its verdict. */
  ghost predicate Rescored(r: seq<Event>, orig: seq<Event>)
  {
    |r| <= |orig| &&
    forall m :: 0 <= m < |r| ==> Unscored(r[m]) == Unscored(orig[m]) && Scored(r[m])
  }

  lemma RescoredStep(r: seq<Event>, orig: seq<Event>, e: Event)
    requires Rescored(r, orig) && |r| < |orig|
    requires Unscored(e) == Unscored(orig[|r|]) && Scored(e)
    ensures Rescored(r + [e], orig)
  {
  }

  /** The rescoring loop's state: `rescored` rescores the first events of
      `recent`, whose features the scorer has recorded after `before`. */
  ghost predicate RescoreProgress(recent: seq<Event>, rescored: seq<Event>, before: Baseline, baseline: Baseline)
  {
    Rescored(rescored, recent) &&
    baseline == before + Observations(recent[..|rescored|])
  }

  lemma RescoreProgressStep(recent: seq<Event>, rescored: seq<Event>, before: Baseline, baseline: Baseline,
                            e: Event, baseline': Baseline)
    requires RescoreProgress(recent, rescored, before, baseline) && |rescored| < |recent|
    requires Unscored(e) == Unscored(recent[|rescored|]) && Scored(e)
    requires baseline' == baseline + [recent[|rescored|].features.Values()]
    ensures RescoreProgress(recent, rescored + [e], before, baseline')
  {
    ObservationsPrefixStep(recent, |rescored|);
    AppendAssociative(before, Observations(recent[..|rescored|]), recent[|rescored|].features.Values());
    RescoredStep(rescored, recent, e);
  }

  lemma RescoreProgressDone(recent: seq<Event>, rescored: seq<Event>, before: Baseline, baseline: Baseline)
    requires RescoreProgress(recent, rescored, before, baseline) && |rescored| == |recent|
    ensures baseline == before + Observations(recent)
    ensures forall m :: 0 <= m < |recent| ==>
      Unscored(rescored[m]) == Unscored(recent[m]) && Scored(rescored[m])
  {
    assert recent[..|rescored|] == recent;
  }

  /** The baseline b followed by the observations of es. */
  function Extend(b: Baseline, es: seq<Event>): (b': Baseline)
    requires WellFormed(b)
    ensures WellFormed(b') && |b'| == |b| + |es|
  {
    b + Observations(es)
  }

  /** The risk each rescored event carries is the one the scorer gives
      recent[m] once the features of recent[..m + 1] have joined the
      baseline that started as before. */
  ghost predicate RisksPinned(recent: seq<Event>, rescored: seq<Event>, before: Baseline,
                              detector: Option<Detector>, sqrt: Sqrt)
    requires WellFormed(before)
  {
    |rescored| <= |recent| &&
    forall m :: 0 <= m < |rescored| ==>
      rescored[m].risk == Risk(Extend(before, recent[..m + 1]), recent[m].features.Values(), detector, sqrt)
  }

  lemma RisksPinnedStep(recent: seq<Event>, rescored: seq<Event>, before: Baseline,
                        detector: Option<Detector>, sqrt: Sqrt, e: Event, baseline': Baseline)
    requires WellFormed(before) && RisksPinned(recent, rescored, before, detector, sqrt)
    requires |rescored| < |recent| && baseline' == Extend(before, recent[..|rescored| + 1])
    requires e.risk == Risk(baseline', recent[|rescored|].features.Values(), detector, sqrt)
    ensures RisksPinned(recent, rescored + [e], before, detector, sqrt)
  {
    var next := rescored + [e];
    forall m | 0 <= m < |next|
      ensures next[m].risk == Risk(Extend(before, recent[..m + 1]), recent[m].features.Values(), detector, sqrt)
    {
      if m < |rescored| {
        assert next[m] == rescored[m];
      } else {
        assert next[m] == e && m == |rescored|;
      }
    }
  }

  /** The risks of es, in order. */
  function RisksOf(es: seq<Event>): seq<real>
  {
    seq(|es|, i requires 0 <= i < |es| => es[i].risk)
  }

  /** The risks that scoring recent again, oldest first, produces when the
      scorer's baseline starts as before: each event is scored against the
      baseline extended by the events up to and including itself. */
  function RescoredRisks(recent: seq<Event>, before: Baseline, detector: Option<Detector>, sqrt: Sqrt): seq<real>
    requires WellFormed(before)
  {
    if recent == [] then []
    else
      RescoredRisks(recent[..|recent| - 1], before, detector, sqrt) +
        [Risk(Extend(before, recent), recent[|recent| - 1].features.Values(), detector, sqrt)]
  }

  lemma RescoredRisksStep(recent: seq<Event>, k: nat, before: Baseline, detector: Option<Detector>, sqrt: Sqrt)
    requires WellFormed(before) && k < |recent|
    ensures RescoredRisks(recent[..k + 1], before, detector, sqrt) ==
      RescoredRisks(recent[..k], before, detector, sqrt) +
        [Risk(Extend(before, recent[..k + 1]), recent[k].features.Values(), detector, sqrt)]
  {
    assert recent[..k + 1][..k] == recent[..k];
    assert recent[..k + 1][k] == recent[k];
  }

  lemma RisksOfAppend(es: seq<Event>, e: Event)
    ensures RisksOf(es + [e]) == RisksOf(es) + [e.risk]
  {
  }

  lemma RescoredRisksExtend(recent: seq<Event>, rescored: seq<Event>, before: Baseline,
                            detector: Option<Detector>, sqrt: Sqrt, e: Event, baseline': Baseline)
    requires WellFormed(before) && |rescored| < |recent|
    requires RisksOf(rescored) == RescoredRisks(recent[..|rescored|], before, detector, sqrt)
    requires baseline' == Extend(before, recent[..|rescored| + 1])
    requires e.risk == Risk(baseline', recent[|rescored|].features.Values(), detector, sqrt)
    ensures RisksOf(rescored + [e]) == RescoredRisks(recent[..|rescored| + 1], before, detector, sqrt)
  {
    RescoredRisksStep(recent, |rescored|, before, detector, sqrt);
    RisksOfAppend(rescored, e);
  }

  /** The whole state of the rescoring loop: progress, scores and pinned risks. */
  ghost predicate RescoreState(recent: seq<Event>, rescored: seq<Event>, before: Baseline, baseline: Baseline,
                               detector: Option<Detector>, sqrt: Sqrt)
  {
    WellFormed(before) &&
    RescoreProgress(recent, rescored, before, baseline) &&
    RisksPinned(recent, rescored, before, detector, sqrt) &&
    RisksOf(rescored) == RescoredRisks(recent[..|rescored|], before, detector, sqrt)
  }

  /** One pass of the rescoring loop: e is the next event scored against the
      baseline that now holds its features. */
  lemma RescoreStateStep(recent: seq<Event>, rescored: seq<Event>, before: Baseline, baseline: Baseline,
                         detector: Option<Detector>, sqrt: Sqrt, e: Event, baseline': Baseline)
    requires RescoreState(recent, rescored, before, baseline, detector, sqrt) && |rescored| < |recent|
    requires baseline' == baseline + [recent[|rescored|].features.Values()]
    requires Unscored(e) == Unscored(recent[|rescored|]) && Scored(e)
    requires WellFormed(baseline') && |baseline'| > 0
    requires e.risk == Risk(baseline', recent[|rescored|].features.Values(), detector, sqrt)
    ensures RescoreState(recent, rescored + [e], before, baseline', detector, sqrt)
  {
    RescoreProgressStep(recent, rescored, before, baseline, e, baseline');
    RisksPinnedStep(recent, rescored, before, detector, sqrt, e, baseline');
    RescoredRisksExtend(recent, rescored, before, detector, sqrt, e, baseline');
  }

  lemma RescoreStateDone(recent: seq<Event>, rescored: seq<Event>, before: Baseline, baseline: Baseline,
                         detector: Option<Detector>, sqrt: Sqrt)
    requires RescoreState(recent, rescored, before, baseline, detector, sqrt) && |rescored| == |recent|
    ensures WellFormed(before)
    ensures baseline == before + Observations(recent)
    ensures forall m :: 0 <= m < |recent| ==>
      Unscored(rescored[m]) == Unscored(recent[m]) && Scored(rescored[m])
    ensures forall m :: 0 <= m < |recent| ==>
      rescored[m].risk == Risk(Extend(before, recent[..m + 1]), recent[m].features.Values(), detector, sqrt)
    ensures RisksOf(rescored) == RescoredRisks(recent, before, detector, sqrt)
  {
    RescoreProgressDone(recent, rescored, before, baseline);
    WholePrefix(recent);
  }

  lemma ObservationsAppend(es: seq<Event>, e: Event)
    ensures Observations(es + [e]) == Observations(es) + [e.features.Values()]
  {
    assert (es + [e])[..|es|] == es;
  }

  lemma UnscoredAllAppend(es: seq<Event>, e: Event)
    ensures UnscoredAll(es + [e]) == UnscoredAll(es) + [Unscored(e)]
  {
    assert (es + [e])[..|es|] == es;
  }

  lemma ObservationsPrefixStep(es: seq<Event>, i: nat)
    requires i < |es|
    ensures Observations(es[..i + 1]) == Observations(es[..i]) + [es[i].features.Values()]
  {
    assert es[..i + 1][..i] == es[..i];
  }

  // Associativity of concatenation, stated where the loops need it so the
  // solver does not have to search for it.

  lemma AppendAssociative<T>(a: seq<T>, b: seq<T>, x: T)
    ensures (a + b) + [x] == a + (b + [x])
  {
  }

  lemma WholePrefix<T>(s: seq<T>)
    ensures s[..|s|] == s
  {
  }

  lemma SeqAssociative<T>(a: seq<T>, b: seq<T>, c: seq<T>)
    ensures (a + b) + c == a + (b + c)
  {
  }

  // ---------------- Listing order ----------------

  ghost predicate SortedByIdDesc(es: seq<Event>)
  {
    forall i, j :: 0 <= i < j < |es| ==> es[i].id >= es[j].id
  }

  /** Inserts e into a list sorted by descending id, after the events whose
      id is greater than e's and before those with an equal id, so that an
      earlier event stays ahead of a later one with the same id. */
  function InsertByIdDesc(e: Event, es: seq<Event>): (r: seq<Event>)
    requires SortedByIdDesc(es)
    ensures SortedByIdDesc(r)
    ensures multiset(r) == multiset(es) + multiset{e}
    ensures |r| == |es| + 1
    ensures r[0] == e || (es != [] && r[0] == es[0])
  {
    if es == [] || e.id >= es[0].id then [e] + es
    else
      var rest := InsertByIdDesc(e, es[1..]);
      assert es == [es[0]] + es[1..];
      assert es[0].id >= rest[0].id;
      [es[0]] + rest
  }

  /** The events sorted by id, newest (largest id) first. */
  function SortByIdDesc(es: seq<Event>): (r: seq<Event>)
    ensures SortedByIdDesc(r)
    ensures multiset(r) == multiset(es)
  {
    if es == [] then []
    else
      assert es == [es[0]] + es[1..];
      InsertByIdDesc(es[0], SortByIdDesc(es[1..]))
  }

  /** es with its order reversed. */
  function Reverse(es: seq<Event>): (r: seq<Event>)
    ensures |r| == |es|
    ensures forall i :: 0 <= i < |es| ==> r[i] == es[|es| - 1 - i]
  {
    if es == [] then [] else Reverse(es[1..]) + [es[0]]
  }

  /** Ids strictly increase along es. */
  ghost predicate IdsIncreasing(es: seq<Event>)
  {
    forall i, j :: 0 <= i < j < |es| ==> es[i].id < es[j].id
  }

  /** Every id of es is below bound. */
  ghost predicate IdsBelow(es: seq<Event>, bound: int)
  {
    forall i :: 0 <= i < |es| ==> es[i].id < bound
  }

  /** An event with an id above all of es goes last. */
  lemma {:induction false} InsertBelowAll(e: Event, r: seq<Event>)
    requires SortedByIdDesc(r)
    requires forall i :: 0 <= i < |r| ==> r[i].id > e.id
    ensures InsertByIdDesc(e, r) == r + [e]
  {
    if r != [] {
      assert r == [r[0]] + r[1..];
      InsertBelowAll(e, r[1..]);
    }
  }

  /** When ids strictly increase, sorting by descending id keeps no tie to
      break: the result is exactly the reversed sequence, as a stable sort
      would also give. */
  lemma {:induction false} SortOfIncreasingIsReverse(es: seq<Event>)
    requires IdsIncreasing(es)
    ensures SortByIdDesc(es) == Reverse(es)
  {
    if es != [] {
      assert IdsIncreasing(es[1..]) by {
        forall i, j | 0 <= i < j < |es[1..]|
          ensures es[1..][i].id < es[1..][j].id
        {
          assert es[1..][i] == es[i + 1] && es[1..][j] == es[j + 1];
        }
      }
      SortOfIncreasingIsReverse(es[1..]);
      var rest := Reverse(es[1..]);
      forall i | 0 <= i < |rest|
        ensures rest[i].id > es[0].id
      {
        var j := |es| - 2 - i;
        assert rest[i] == es[1..][j];
        assert es[1..][j] == es[j + 1];
      }
      InsertBelowAll(es[0], rest);
    }
  }

  /** Ids strictly increase along es and all lie below bound, stated one
      event at a time from the back. */
  ghost predicate IdsChain(es: seq<Event>, bound: int)
    decreases |es|
  {
    es == [] || (es[|es| - 1].id < bound && IdsChain(es[..|es| - 1], es[|es| - 1].id))
  }

  /** The chain is exactly increasing ids below the bound. */
  lemma {:induction false} IdsChainMeans(es: seq<Event>, bound: int)
    requires IdsChain(es, bound)
    ensures IdsIncreasing(es) && IdsBelow(es, bound)
    decreases |es|
  {
    if es != [] {
      var init := es[..|es| - 1];
      IdsChainMeans(init, es[|es| - 1].id);
      forall i | 0 <= i < |init|
        ensures es[i] == init[i]
      {
      }
    }
  }

  /** Raising the bound keeps the chain. */
  lemma IdsChainWeaken(es: seq<Event>, bound: int, bound': int)
    requires IdsChain(es, bound) && bound <= bound'
    ensures IdsChain(es, bound')
  {
  }

  /** An event above every stored id and below the bound extends the chain. */
  lemma IdsChainAppend(es: seq<Event>, e: Event, bound: int)
    requires IdsChain(es, e.id) && e.id < bound
    ensures IdsChain(es + [e], bound)
  {
    assert (es + [e])[..|es|] == es;
  }

  /** Sequences with the same ids position by position satisfy the same chain. */
  lemma {:induction false} IdsChainSameIds(a: seq<Event>, b: seq<Event>, bound: int)
    requires |a| == |b|
    requires forall i :: 0 <= i < |a| ==> a[i].id == b[i].id
    requires IdsChain(a, bound)
    ensures IdsChain(b, bound)
    decreases |a|
  {
    if a != [] {
      IdsChainSameIds(a[..|a| - 1], b[..|b| - 1], a[|a| - 1].id);
    }
  }

  /** Replacing the tail from start by events that differ only in their
      scores keeps the prefix, the events up to their scores, and the id
      invariants. */
  lemma RescoreSplice(es: seq<Event>, start: nat, recent: seq<Event>, rescored: seq<Event>, bound: int)
    requires start <= |es| && recent == es[start..] && |rescored| == |recent|
    requires forall m :: 0 <= m < |recent| ==>
      Unscored(rescored[m]) == Unscored(recent[m]) && Scored(rescored[m])
    requires IdsChain(es, bound)
    ensures |es[..start] + rescored| == |es|
    ensures (es[..start] + rescored)[..start] == es[..start]
    ensures forall k :: start <= k < |es| ==>
      Unscored((es[..start] + rescored)[k]) == Unscored(es[k]) && Scored((es[..start] + rescored)[k])
    ensures IdsChain(es[..start] + rescored, bound)
    ensures (es[..start] + rescored)[start..] == rescored
  {
    var updated := es[..start] + rescored;
    assert updated[..start] == es[..start];
    assert updated[start..] == rescored;
    forall k | start <= k < |es|
      ensures Unscored(updated[k]) == Unscored(es[k]) && Scored(updated[k])
    {
      assert updated[k] == rescored[k - start] && es[k] == recent[k - start];
    }
    forall k | 0 <= k < |es|
      ensures updated[k].id == es[k].id
    {
      if k >= start {
        assert Unscored(updated[k]).id == Unscored(es[k]).id;
      }
    }
    IdsChainSameIds(es, updated, bound);
  }

  // ---------------- Action log ----------------

  /** One audit record of a response action. */
  datatype ActionRecord = ActionRecord(ts: real, eventId: int, action: string, note: string)

  /** How many of the most recent records the read path exposes. */
  const RecentWindow: nat := 300

  /** The shared append-only audit log of response actions. */
  class ActionLog {
    var entries: seq<ActionRecord>

    constructor ()
      ensures entries == []
    {
      entries := [];
    }

    /** The last 300 records (all of them when there are fewer), oldest first. */
    function Recent(): (r: seq<ActionRecord>)
      reads this
      ensures |r| <= RecentWindow
      ensures |entries| <= RecentWindow ==> r == entries
      ensures |entries| > RecentWindow ==> |r| == RecentWindow
      ensures forall i :: 0 <= i < |r| ==> r[i] == entries[|entries| - |r| + i]
    {
      if |entries| <= RecentWindow then entries else entries[|entries| - RecentWindow..]
    }
  }

  // ---------------- Event store ----------------

  /** Events rescored on every listing: the last twenty. */
  const RescoreWindow: nat := 20

  /** Index of the first event a listing rescores. */
  function RescoreStart(n: nat): (s: nat)
    ensures s <= n && n - s <= RescoreWindow
    ensures n >= RescoreWindow ==> n - s == RescoreWindow
    ensures n <= RescoreWindow ==> s == 0
  {
    if n <= RescoreWindow then 0 else n - RescoreWindow
  }

  /** Scores every event of recent again, oldest first, and returns them
      with the new risk and verdict; their features join the baseline in order. */
  method RescoreEach(ueba: UebaModel, recent: seq<Event>) returns (rescored: seq<Event>)
    requires ueba.Valid()
    modifies ueba
    ensures ueba.Valid()
    ensures |rescored| == |recent|
    ensures forall m :: 0 <= m < |recent| ==>
      Unscored(rescored[m]) == Unscored(recent[m]) && Scored(rescored[m])
    ensures forall m :: 0 <= m < |recent| ==>
      rescored[m].risk ==
        Risk(Extend(old(ueba.baseline), recent[..m + 1]), recent[m].features.Values(), ueba.detector, ueba.sqrt)
    ensures RisksOf(rescored) == RescoredRisks(recent, old(ueba.baseline), ueba.detector, ueba.sqrt)
    ensures ueba.baseline == old(ueba.baseline) + Observations(recent)
  {
    ghost var before := ueba.baseline;
    rescored := [];
    while |rescored| < |recent|
      invariant ueba.Valid()
      invariant RescoreState(recent, rescored, before, ueba.baseline, ueba.detector, ueba.sqrt)
    {
      var e := recent[|rescored|];
      ghost var seen := ueba.baseline;
      var risk := ueba.Score(e.features);
      var e' := e.(risk := risk, verdict := Classify(risk));
      RescoreStateStep(recent, rescored, before, seen, ueba.detector, ueba.sqrt, e', ueba.baseline);
      rescored := rescored + [e'];
    }
    RescoreStateDone(recent, rescored, before, ueba.baseline, ueba.detector, ueba.sqrt);
  }

  /** The events seen so far and the id counter. */
  class EventStore {
    var events: seq<Event>
    var nextId: int

    /** The counter has handed out every stored id, in increasing order. */
    ghost predicate Valid()
      reads this
    {
      IdsChain(events, nextId)
    }

    constructor ()
      ensures Valid()
      ensures events == [] && nextId == 1
    {
      events := [];
      nextId := 1;
    }

    /** Hands out the current counter value and advances it by one. */
    method NextId() returns (id: int)
      requires Valid()
      modifies this
      ensures Valid()
      ensures id == old(nextId)
      ensures nextId == id + 1
      ensures events == old(events)
    {
      IdsChainWeaken(events, nextId, nextId + 1);
      id := nextId;
      nextId := nextId + 1;
    }

    /** Appends e after every earlier event; an e carrying a freshly drawn id
        keeps the store valid. */
    method AddEvent(e: Event) returns (added: Event)
      requires Valid()
      modifies this
      ensures IdsChain(old(events), e.id) && e.id < nextId ==> Valid()
      ensures added == e
      ensures events == old(events) + [e]
      ensures nextId == old(nextId)
    {
      if IdsChain(events, e.id) && e.id < nextId {
        IdsChainAppend(events, e, nextId);
      }
      events := events + [e];
      added := e;
    }

    /** One pass of the ingestion loop: converts r, drawing an id once its
        features have converted, then scores and appends the event when its
        timestamp converts too; a row that fails is skipped. */
    method IngestRow(ueba: UebaModel, r: Row, source: string, now: real) returns (e: Option<Event>)
      requires Valid() && ueba.Valid()
      modifies this, ueba
      ensures Valid() && ueba.Valid()
      ensures nextId == old(nextId) + (if ExtractFeatures(r).Some? then 1 else 0)
      ensures e.Some? <==> RowEvent(r, old(nextId), source, now).Some?
      ensures e.Some? ==> Unscored(e.value) == RowEvent(r, old(nextId), source, now).value
      ensures events == old(events) + (if e.Some? then [e.value] else [])
      ensures ueba.baseline == old(ueba.baseline) + (if e.Some? then [e.value.features.Values()] else [])
      ensures e.Some? ==> e.value.risk == Risk(ueba.baseline, e.value.features.Values(), ueba.detector, ueba.sqrt)
      ensures e.Some? ==> Scored(e.value)
    {
      e := None;
      var feats := ExtractFeatures(r);
      if feats.Some? {
        var id := NextId();
        var made := MakeEvent(r, feats.value, id, source, now);
        if made.Some? {
          var risk := ueba.Score(feats.value);
          var scored := made.value.(risk := risk, verdict := Classify(risk));
          var _ := AddEvent(scored);
          e := Some(scored);
        }
      }
    }

    /** Converts, scores and appends every row that converts, skipping the
        others, and returns how many events were appended. Each row that
        draws an id takes the clock's next reading. */
    method IngestRows(ueba: UebaModel, rows: seq<Row>, source: string, clock: Clock) returns (added: nat)
      requires Valid() && ueba.Valid()
      modifies this, ueba
      ensures Valid() && ueba.Valid()
      ensures |events| == |old(events)| + added
      ensures events[..|old(events)|] == old(events)
      ensures UnscoredAll(events[|old(events)|..]) == Ingested(rows, old(nextId), source, clock)
      ensures nextId == old(nextId) + IdsDrawn(rows)
      ensures ueba.baseline == old(ueba.baseline) + Observations(events[|old(events)|..])
      ensures forall k :: |old(events)| <= k < |events| ==> Scored(events[k])
    {
      var firstId := nextId;
      ghost var before := ueba.baseline;
      ghost var appended: seq<Event> := [];
      added := 0;
      var drawn: nat := 0;
      var i := 0;
      while i < |rows|
        invariant 0 <= i <= |rows|
        invariant Valid() && ueba.Valid()
        invariant events == old(events) + appended
        invariant added == |appended|
        invariant nextId == firstId + drawn
        invariant IngestProgress(rows, i, firstId, source, clock, appended, nextId, before, ueba.baseline)
      {
        var now := clock(drawn);
        ghost var id := nextId;
        ghost var seen := ueba.baseline;
        var e := IngestRow(ueba, rows[i], source, now);
        IngestProgressStep(rows, i, firstId, source, clock, appended, id, drawn, now, before, seen, e, nextId, ueba.baseline);
        drawn := nextId - firstId;
        ghost var extra := if e.Some? then [e.value] else [];
        SeqAssociative(old(events), appended, extra);
        appended := appended + extra;
        if e.Some? {
          added := added + 1;
        }
        i := i + 1;
      }
      assert rows[..|rows|] == rows;
      assert events[|old(events)|..] == appended;
    }

    /** The rescoring pass of a listing: scores the last twenty events again,
        oldest first, and replaces their risk and verdict. */
    method RescoreRecent(ueba: UebaModel)
      requires Valid() && ueba.Valid()
      modifies this, ueba
      ensures Valid() && ueba.Valid()
      ensures nextId == old(nextId)
      ensures |events| == |old(events)|
      ensures events[..RescoreStart(|events|)] == old(events)[..RescoreStart(|events|)]
      ensures forall k :: RescoreStart(|events|) <= k < |events| ==>
        Unscored(events[k]) == Unscored(old(events)[k])
      ensures ueba.baseline == old(ueba.baseline) + Observations(old(events)[RescoreStart(|events|)..])
      ensures forall k :: RescoreStart(|events|) <= k < |events| ==> Scored(events[k])
      ensures RisksOf(events[RescoreStart(|events|)..]) ==
        RescoredRisks(old(events)[RescoreStart(|events|)..], old(ueba.baseline), ueba.detector, ueba.sqrt)
    {
      var start := RescoreStart(|events|);
      var recent := events[start..];
      var rescored := RescoreEach(ueba, recent);
      RescoreSplice(events, start, recent, rescored, nextId);
      var updated := events[..start] + rescored;
      ghost var prior := events;
      events := updated;
      assert |events| == |prior| && RescoreStart(|events|) == start;
      assert old(events) == prior;
    }

    /** Rescores the last twenty events, then returns every event ordered by
        descending id. */
    method ListEvents(ueba: UebaModel) returns (listing: seq<Event>)
      requires Valid() && ueba.Valid()
      modifies this, ueba
      ensures Valid() && ueba.Valid()
      ensures nextId == old(nextId)
      ensures |events| == |old(events)|
      ensures events[..RescoreStart(|events|)] == old(events)[..RescoreStart(|events|)]
      ensures forall k :: RescoreStart(|events|) <= k < |events| ==>
        Unscored(events[k]) == Unscored(old(events)[k])
      ensures ueba.baseline == old(ueba.baseline) + Observations(old(events)[RescoreStart(|events|)..])
      ensures forall k :: RescoreStart(|events|) <= k < |events| ==> Scored(events[k])
      ensures RisksOf(events[RescoreStart(|events|)..]) ==
        RescoredRisks(old(events)[RescoreStart(|events|)..], old(ueba.baseline), ueba.detector, ueba.sqrt)
      ensures SortedByIdDesc(listing)
      ensures multiset(listing) == multiset(events)
      ensures listing == Reverse(events)
    {
      RescoreRecent(ueba);
      listing := SortByIdDesc(events);
      IdsChainMeans(events, nextId);
      SortOfIncreasingIsReverse(events);
    }
  }
}
