# Zenguard core in Dafny

Zenguard is a small zero-trust security dashboard. It ingests security events
from SIEM back ends and scores each one with a UEBA (user and entity behaviour
analytics) risk model. Each score is classified into a verdict. Enforcement
actions are written to a shared audit log, either on request or by an
automatic policy. This project models and proves the three pieces of
sequential logic behind that:

- `ueba.dfy` (module `Ueba`) models the risk scorer.
  - `UebaModel` is a class holding an optional pretrained detector and the
    growing baseline of observations.
  - `Score` appends the current feature vector to the baseline.
  - It then scores the vector with the detector's decision value, mapped
    onto [0, 100].
  - When there is no detector, or its call fails, it uses the z-score
    heuristic over the baseline instead.
  - The heuristic has per-column means and sample variances with
    denominator `max(1, n - 1)`. A standard deviation of zero becomes 1.0.
    The result is `20 + 15 * mean |z|`, clamped.
  - `Risk` is the specification function. `Score` is proved equal to it, and
    the heuristic's loop (`FallbackScore`) is proved equal to `FallbackRisk`.
- `events.dfy` (module `Events`) models event bookkeeping.
  - Verdicts (`Classify`).
  - Feature extraction from a SIEM row, where absent keys take defaults.
  - The id counter and the event store (`EventStore`).
  - The ingestion loop, which skips rows that fail to convert and counts the
    rest.
  - The listing, which rescores the last twenty events and orders everything
    by descending id.
  - The shared action log and its last-300 read window (`ActionLog`).
  - The ingestion loop is proved against `Ingested`, a recursive definition
    of the events a row sequence yields.
- `respond.dfy` (module `Respond`) models the response side.
  - The action catalogue and the log writer.
  - The manual response, with its "custom action" fallback note.
  - The automatic policy: three actions at risk 90 or above, MFA enforcement
    from 75, and log-only below that.
- `wrappers.dfy` holds the `Option` type used for conversions and calls that
  may fail.

Modelling conventions:

- Numbers are `real`.
- The pretrained detector is an opaque function returning `Option<real>`.
  `None` stands for a call that raises.
- The square root is an abstract function. Its only known facts are that it
  is non-negative and maps 0 to 0.
- A SIEM row is a map from keys to values. Each value gives its text form,
  and its float form or `None` when the float conversion raises.
- A request field is absent, present and converting, or present and not
  converting.
- The clock is a parameter. A single-record call gets one reading `now`.
  The automatic response and ingestion get a `Clock`, a function from k to
  the k-th reading: the i-th record of an automatic response carries
  `clock(i)`, and the row that draws the k-th id reads `clock(k)` (both
  counted from 0).
- The store starts empty: the random seed events are not modelled.

The emptiness guard at `services/ueba.py:51-52` would return a neutral 50.0,
but the observation is appended first (`:41`), so the guard never fires and a
cold start scores 20.0. `ColdStartScore` proves 20.0 (`FallbackBase`), and
`Score` ensures the baseline is non-empty when it scores.

## Model

| member | source | states |
|---|---|---|
| Ueba.FeatureVector.Values | services/ueba.py:40 | an observation has seven values, the first the session duration and the last the MFA-bypass flag |
| Ueba.Clamp | services/ueba.py:46 | the result lies in [0, 100], equals x inside that range, and is 0 below it and 100 above it |
| Ueba.Means | services/ueba.py:53 | one mean per feature; mean j times the baseline size is the sum of column j |
| Ueba.Stds | services/ueba.py:54-58 | one deviation per feature, each strictly positive, and equal to the square root of its column's variance when that root is non-zero and 1.0 when it is zero |
| Ueba.AtLeastOne | services/ueba.py:57 | a variance or z-score denominator is at least 1 and at least n |
| Ueba.Variance | services/ueba.py:56-57 | the sample variance of a column is never negative |
| Ueba.StdDev | services/ueba.py:58 | a deviation used as a divisor is strictly positive, and equals sqrt(var) when that is non-zero and 1.0 when it is zero |
| Ueba.MeanAbsZ | services/ueba.py:59 | the averaged absolute z-score is non-negative |
| Ueba.FallbackRisk | services/ueba.py:53-60 | the heuristic's risk always lies in [20, 100] |
| Ueba.ModelRisk | services/ueba.py:45-46 | the detector path's risk lies in [0, 100]; it is 0 exactly when raw >= 50/80 and 100 exactly when raw <= -50/80 |
| Ueba.Risk | services/ueba.py:42-60 | the risk of a vector, scored by the detector or by the fallback, lies in [0, 100] |
| Ueba.DetectorFailureFallsBack | services/ueba.py:44-49 | when the decision function fails, the score equals the score without a detector, so it is at least 20 |
| Ueba.UniformBaselineScoresBase | services/ueba.py:53-60 | when every baseline observation equals the vector, the fallback gives exactly 20 |
| Ueba.UebaModel.constructor | services/ueba.py:21-25 | a new scorer has an empty baseline and the given optional detector |
| Ueba.UebaModel.Score | services/ueba.py:36-61 | appends exactly the vector's values to the baseline and keeps the earlier ones; the baseline is non-empty when scoring, so the 50.0 guard is dead; the result is Risk of the new baseline, in [0, 100] |
| Ueba.FallbackScore | services/ueba.py:53-60 | the column-by-column loop computes exactly FallbackRisk, which lies in [20, 100] |
| Ueba.ColdStartScore | services/ueba.py:51-60 | a fresh scorer without a detector scores its first vector exactly 20.0 |
| Events.Classify | routes/events.py:186 | anomalous iff risk >= 75, benign iff risk <= 40, pending iff 40 < risk < 75 |
| Events.ClassifyMonotone | routes/events.py:79 | a higher risk never gets a milder verdict |
| Events.ExtractValues | routes/events.py:195-203 | a successful extraction yields one value per remaining feature key |
| Events.ExtractValuesSpec | routes/events.py:196-202 | extraction from key k on succeeds iff every present feature key from k on converts; each value is the row's value when the key is present and the default otherwise |
| Events.ExtractFeatures | routes/events.py:193-203 | features extract iff every feature value converts, and the vector's values are then the extracted ones in schema order |
| Events.ExtractFeaturesSpec | routes/events.py:193-203 | features extract iff every present feature key converts; feature k is the row's value when present and default k otherwise |
| Events.ExtractFromBareRow | routes/events.py:196-202 | a row with none of the feature keys gives the defaults 5.0, 0.0, 12.0, 0.8, 0.0, 1.0, 0.0 |
| Events.ExtractDependsOnlyOnFeatureKeys | routes/events.py:193-203 | two rows that agree on the seven feature keys extract to the same features |
| Events.TextField | routes/events.py:179-182 | the text of the key when it is present, else the text of the alternative key when that is present, else the default |
| Events.MakeEvent | routes/events.py:175-184 | the event exists iff the timestamp converts, and a row without a timestamp is stamped with the clock reading; it carries the drawn id, the converted timestamp, the source and the features, with risk 0 and a pending verdict before scoring; its user, device, event type and details come from `username`/`user`, `hostname`/`device`, `event_type`/`name`, `details`/`message`, defaulting to "unknown", "unknown", "event" and "" |
| Events.RowEvent | routes/events.py:174-184 | a row yields an event iff its features and its timestamp both convert; the event carries the given id and the row's features |
| Events.Ingested | routes/events.py:170-191 | reference definition of the unscored events a row sequence yields: rows in order, a row that fails to convert is skipped, and the row drawing the k-th id gets id firstId + k and reads clock(k) |
| Events.IdsDrawn | routes/events.py:174-176 | ingestion draws at most one id per row |
| Events.IngestedIds | routes/events.py:170-191 | ingestion creates at most one event per drawn id; the ids lie in the range the counter handed out and strictly increase |
| Events.TimestampFailureLeavesGap | routes/events.py:176-177 | a row whose features convert but whose timestamp does not still draws an id and a clock reading, so the next good row's event gets the following id |
| Events.UnstampedRowsReadTheClock | routes/events.py:175-177 | two good rows without a timestamp become two events with consecutive ids, stamped clock(0) and clock(1): each row reads the clock itself |
| Events.InsertByIdDesc | routes/events.py:83 | inserting into a list sorted by descending id keeps it sorted and adds exactly that event; the new event goes first or the old head stays first (the definition places it ahead of equal ids, which makes the sort stable) |
| Events.SortByIdDesc | routes/events.py:83 | the listing is sorted by descending id and is a permutation of the events; the definition, an insertion sort, also keeps equal ids in input order, as Python's stable sorted does (not stated in the contract; the store has no equal ids, see SortOfIncreasingIsReverse) |
| Events.Reverse | routes/events.py:83 | the i-th element of the result is the i-th element from the end of the input |
| Events.InsertBelowAll | routes/events.py:83 | inserting an event whose id is below every id of a descending list puts it at the end |
| Events.SortOfIncreasingIsReverse | routes/events.py:83 | when ids strictly increase, sorting by descending id is exactly reversal, so ties and their order never arise |
| Events.IdsChainMeans | routes/events.py:34-42 | the store invariant means the ids strictly increase along the list and all lie below the counter |
| Events.IdsChainAppend | routes/events.py:34-42 | appending an event whose id is above every stored id and below the counter keeps the invariant |
| Events.ActionLog.constructor | routes/events.py:28 | the action log starts empty |
| Events.ActionLog.Recent | routes/events.py:96-97 | the read window holds at most 300 records: the last ones of the log, in insertion order, or all of them when there are fewer |
| Events.RescoreStart | routes/events.py:76 | the listing rescores at most the last 20 events, exactly 20 when there are at least 20, and all of them (start 0) when there are at most 20 |
| Events.EventStore.constructor | routes/events.py:27-29 | the store starts with no events and the counter at 1, and its ids invariant holds |
| Events.EventStore.NextId | routes/events.py:34-38 | returns the current counter and advances it by exactly one; the events are unchanged; ids stay increasing and below the counter |
| Events.EventStore.AddEvent | routes/events.py:40-42 | appends the event at the end, leaves earlier events unchanged and returns the event; the ids invariant survives when the event's id is above the stored ones and below the counter |
| Events.EventStore.IngestRow | routes/events.py:173-190 | one row draws an id iff its features extract; it appends an event iff its features and timestamp convert; that event is the row's event with the drawn id, scored by the scorer, with the verdict of its risk; the ids invariant is kept |
| Events.EventStore.IngestRows | routes/events.py:170-191 | returns how many events it appended and keeps the earlier events; the appended events, with scores cleared, are exactly Ingested(rows); the counter advances by IdsDrawn(rows); each appended event has a valid risk and its verdict; the ids invariant is kept |
| Events.EventStore.RescoreRecent | routes/events.py:76-79 | only the last 20 events change, and only in risk and verdict; each of them gets a valid risk and its verdict; their risks are exactly RescoredRisks of the old last 20 over the old baseline; their features are appended to the baseline oldest first; the ids invariant is kept |
| Events.RescoredRisks | routes/events.py:76-79 | reference definition of the risks a rescoring pass gives: each event is scored against the baseline extended by the features of the events up to and including itself |
| Events.RescoreEach | routes/events.py:76-79 | scores the given events oldest first: same length, each keeps everything but risk and verdict and gets a valid risk with its verdict; event m's risk is Risk of the old baseline extended by events 0..m, scored on event m's features, so the risks equal RescoredRisks; the baseline grows by exactly their features |
| Events.EventStore.ListEvents | routes/events.py:73-84 | after rescoring the last 20, returns every event sorted by descending id, which is exactly the store's list reversed, since ids strictly increase; the last 20 carry exactly RescoredRisks of the old last 20 over the old baseline |
| Respond.NoteFor | routes/respond.py:33 | the note is a catalogue note or "custom action", and it is a catalogue note iff the action is catalogued |
| Respond.FieldOr | routes/respond.py:47-48 | a request field yields None iff its conversion raises, the default when absent, and the converted value when present |
| Respond.NoteForSpec | routes/respond.py:10-14 | enforce_mfa, isolate_endpoint and block_ip get their catalogue notes; every other action name gets "custom action" |
| Respond.LogAction | routes/respond.py:20-26 | appends exactly one record carrying the time, event id, action and note; the earlier records are unchanged |
| Respond.RespondManual | routes/respond.py:28-35 | fails only when the event id does not convert, and then logs nothing; the id defaults to 0 and the action to ""; otherwise it appends one record with NoteFor(action) and replies with the id and action |
| Respond.AutoPolicy | routes/respond.py:49-56 | the policy always takes one or three actions |
| Respond.Records | routes/respond.py:16-26 | one record per step, in order, each naming the event and the i-th one stamped with the i-th clock reading |
| Respond.AutoPolicyTiers | routes/respond.py:49-56 | risk >= 90 gives exactly isolate_endpoint, block_ip, enforce_mfa, in that order and with the high-risk note; 75 <= risk < 90 gives one enforce_mfa; risk < 75, including the default 0.0, gives exactly one log_only |
| Respond.AutoPolicyActionsKnown | routes/respond.py:49-56 | every automatic action is a catalogued action or log_only |
| Respond.AutoPolicyMatchesVerdict | routes/respond.py:49-56 | MFA is enforced iff the risk's verdict is anomalous; any other verdict gets log_only only |
| Respond.EnforcedMonotone | routes/respond.py:49-56 | a higher risk never takes fewer enforcement actions |
| Respond.RespondAuto | routes/respond.py:37-57 | fails iff the risk or the id does not convert, and then logs nothing; the risk defaults to 0.0 and the id to 0; otherwise it appends exactly the policy's records for that risk and event, each with its own clock reading, and nothing else |
| Respond.AutoRecordsShareEvent | routes/respond.py:16-26 | every record of one automatic response names the same event, and the i-th carries the i-th clock reading |

## Left out

- HTTP and configuration are not modelled: Flask routing, JSON parsing, `jsonify`, the 404 reply of `get_event`, and `app.py`. A request body that is not a JSON object, or an `event` field of `respond_auto` that is not an object (routes/respond.py:46-47, where `ev.get` then raises before anything is logged), is not modelled either. The request handlers become methods over their decoded fields.
- Loading the pretrained model is not modelled: `_maybe_load`, joblib and scikit-learn's IsolationForest are file I/O and a foreign library. The detector is an optional opaque function; `None` stands for a missing artifact or a failed load.
- The random seed events, `simulate_event` and `scenario_attack_drill` are not modelled, because they depend on `random`. `get_event` and `refresh_from_siem` are not modelled either. The SIEM clients are not part of this model: SIEM rows are an input sequence.
- The clock: `time.time()` becomes a parameter. `respond_auto` gets one reading per record. `_ingest_rows` gets a `Clock` function, and the row that draws the k-th id reads `clock(k)`, as the source reads the clock once per row that reaches `_now()`. The readings are arbitrary: the model does not require them to increase.
- Floating point is not modelled: scores are reals with exact arithmetic, so rounding, NaN and infinities are out of scope. The square root is abstract. `int()` truncation of a float id is folded into the field's converted value.
- Events.EventStore.IngestRows: states each appended event's risk as a valid score with its verdict. It does not say which score the scorer produced for it; `IngestRow` and `UebaModel.Score` state that per call.
- Events.EventStore.RescoreRecent: the source's exception branch is not modelled. That branch (`e.risk = e.risk or 50.0`, routes/events.py:81) turns a risk of exactly 0.0 into 50.0, whether the event was never scored or an earlier detector score was 0.0, keeps any other earlier risk, and leaves the verdict unchanged. It is reachable only through floating-point overflow, such as `(x - m) ** 2` raising OverflowError at `services/ueba.py:57`, and floating point is out of scope.
- Events.EventStore.IngestRow: appends an event iff its features and timestamp convert only because floating point is out of scope. In the source, an OverflowError raised by the scorer (`services/ueba.py:57`) inside `_ingest_rows` is caught by the `except ... continue` at `routes/events.py:189-190`: the row is skipped after its id was drawn and its observation joined the baseline. The model's scorer never raises, so that path is not modelled.
- Events.EventStore.ListEvents: the event store holds event values. The model replaces the rescored events, where the source mutates the shared event objects. No event object appears twice, so the result is the same.
- Concurrency and locking are out of scope: the source has none.
