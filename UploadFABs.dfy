/**
 * The ingestion flow of the upload buttons (components/UploadFABs.tsx): `pickImage` analyses a
 * picked image, stores one completed document and, when the analysis found events, schedules the
 * confirmation `alertEventsFound`, which on "Yes" writes the candidates one by one.
 *
 * Everything the flow takes from outside (the picker, the analysis service, `Math.random` ids,
 * the clock, the user's answer, an I/O failure of the tag insert) is a parameter. What the flow
 * does to the screen and to other code (alerts, the refresh callback, the timer) is an `Effect`
 * appended to a ghost log, so the order of writes and prompts can be stated.
 */
module UploadFABs {
  import opened Wrappers
  import opened Types
  import opened DatabaseService
  import opened ApiService

  /** What the image library returned. */
  datatype PickResult = Canceled | Picked(uri: string)

  /**
   * The outside inputs of one press of the image button: the picker's answer, the analysis
   * (`None` when `analyzeImage` throws), the random document id, the ISO and locale renderings
   * of the clock, and whether the tag insert of `addDocument` fails.
   */
  datatype Upload = Upload(
    pick: PickResult,
    analysis: Option<AnalyzeImageResponse>,
    docId: string,
    uploadDate: string,
    timeLabel: string,
    tagWriteFails: bool)

  /** What the flow does outside its own state, in the order it does it. */
  datatype Effect =
    | Analyze(uri: string)                      // apiService.analyzeImage(uri)
    | SaveDocument(doc: MedicalDocument)        // databaseService.addDocument(doc)
    | Refresh                                   // onUploadComplete()
    | ScheduleOffer(events: seq<MedicalEvent>)  // the 500 ms timer that calls alertEventsFound
    | ShowError                                 // the 'Failed to analyze image.' alert
    | AskUser(count: nat)                       // the 'Found n event(s). Add to calendar?' alert
    | SaveEvent(event: MedicalEvent)            // databaseService.addEvent(event)
    | ShowSuccess                               // the 'Events added to calendar!' alert

  /** An effect and whether the spinner (`isUploading`) was showing when it happened. */
  datatype Logged = Logged(effect: Effect, uploading: bool)

  function Flagged(effects: seq<Effect>, uploading: bool): (r: seq<Logged>)
    ensures |r| == |effects|
    ensures forall k :: 0 <= k < |r| ==> r[k] == Logged(effects[k], uploading)
  {
    seq(|effects|, k requires 0 <= k < |effects| => Logged(effects[k], uploading))
  }

  lemma FlaggedSnoc(effects: seq<Effect>, e: Effect, uploading: bool)
    ensures Flagged(effects + [e], uploading) == Flagged(effects, uploading) + [Logged(e, uploading)]
  {
  }

  // ---------------------------------------------------------------- pickImage

  datatype PickOutcome = NothingPicked | ErrorShown | DocumentSaved

  /** How a press of the image button ended, the store afterwards and what it did, in order. */
  datatype Attempt = Attempt(outcome: PickOutcome, store: Snapshot, effects: seq<Effect>)

  /** The document built from an analysis: named after the local time, always `'completed'`. */
  function NewDocument(uri: string, a: AnalyzeImageResponse, id: string, uploadDate: string, timeLabel: string): (d: MedicalDocument)
    ensures d.id == id && d.uri == uri && d.uploadDate == uploadDate && d.status == DocumentStatus.Completed
    ensures |d.name| >= 7 && d.name[..7] == "Upload_" && d.name[7..] == timeLabel
    ensures Truthy(d.category) <==> a.category != ""
    ensures d.extractedEvents.None?
    ensures var back := ReadDocument(DocumentRowOf(d));
      && back.summary == Some(a.summary) && back.category == Some(a.category)
      && back.context == Some(a.contextText) && back.embedding == Some(a.embedding)
  {
    MedicalDocument(id, uri, "Upload_" + timeLabel, uploadDate, DocumentStatus.Completed,
                    Some(a.summary), Some(a.category), Some(a.contextText), Some(a.embedding), None)
  }

  /** `onUploadComplete?.()`: the refresh happens only when the parent passed a callback. */
  function Notify(notify: bool): seq<Effect> {
    if notify then [Refresh] else []
  }

  /** The events pickImage hands to the timer, or none. */
  function Offered(r: Attempt): seq<MedicalEvent> {
    if r.effects != [] && r.effects[|r.effects| - 1].ScheduleOffer? then r.effects[|r.effects| - 1].events else []
  }

  /**
   * pickImage: nothing on a cancelled pick; otherwise analyse, store the document, refresh and
   * schedule the offer of the extracted events when there are any. A throw from the analysis or
   * from addDocument ends in the error alert.
   */
  function PickImageSpec(s: Snapshot, u: Upload, notify: bool): (r: Attempt)
    ensures u.pick.Canceled? <==> r.outcome == NothingPicked
    ensures u.pick.Canceled? ==> r == Attempt(NothingPicked, s, [])
    ensures u.pick.Picked? ==> |r.effects| >= 2 && r.effects[0] == Analyze(u.pick.uri)
    ensures u.pick.Picked? && u.analysis.None? ==> r == Attempt(ErrorShown, s, [Analyze(u.pick.uri), ShowError])
    ensures r.outcome == ErrorShown <==> r.effects != [] && r.effects[|r.effects| - 1] == ShowError
    ensures r.outcome == DocumentSaved ==> u.docId in r.store.documents
    ensures forall k :: 0 <= k < |r.effects| - 1 ==> !r.effects[k].ScheduleOffer?
    ensures Offered(r) != [] ==>
      && r.outcome == DocumentSaved && Offered(r) == u.analysis.value.extractedEvents
      && r.effects[1] == SaveDocument(NewDocument(u.pick.uri, u.analysis.value, u.docId, u.uploadDate, u.timeLabel))
    ensures r.store.events == s.events
  {
    match u.pick
    case Canceled => Attempt(NothingPicked, s, [])
    case Picked(uri) =>
      match u.analysis
      case None => Attempt(ErrorShown, s, [Analyze(uri), ShowError])
      case Some(a) =>
        var doc := NewDocument(uri, a, u.docId, u.uploadDate, u.timeLabel);
        var step := AddDocumentSpec(s, doc, u.tagWriteFails);
        if step.outcome.Fail? then Attempt(ErrorShown, step.state, [Analyze(uri), SaveDocument(doc), ShowError])
        else
          var offer := if a.extractedEvents != [] then [ScheduleOffer(a.extractedEvents)] else [];
          Attempt(DocumentSaved, step.state, [Analyze(uri), SaveDocument(doc)] + Notify(notify) + offer)
  }

  /** pickImage keeps the store well formed and every tag pointing at its document. */
  lemma PickImageKeepsInvariants(s: Snapshot, u: Upload, notify: bool)
    ensures WellFormed(s) ==> WellFormed(PickImageSpec(s, u, notify).store)
    ensures Referential(s) ==> Referential(PickImageSpec(s, u, notify).store)
  {
    if u.pick.Picked? && u.analysis.Some? {
      AnalyzedAttempt(s, u, notify);
      var doc := NewDocument(u.pick.uri, u.analysis.value, u.docId, u.uploadDate, u.timeLabel);
      if WellFormed(s) {
        AddDocumentKeepsWellFormed(s, doc, u.tagWriteFails);
      }
      if Referential(s) {
        AddDocumentKeepsReferential(s, doc, u.tagWriteFails);
      }
    }
  }

  /** pickImage after a successful analysis, in terms of the one addDocument call it makes. */
  lemma AnalyzedAttempt(s: Snapshot, u: Upload, notify: bool)
    requires u.pick.Picked? && u.analysis.Some?
    ensures var a := u.analysis.value;
      var doc := NewDocument(u.pick.uri, a, u.docId, u.uploadDate, u.timeLabel);
      var step := AddDocumentSpec(s, doc, u.tagWriteFails);
      var r := PickImageSpec(s, u, notify);
      && r.store == step.state
      && (step.outcome.Fail? ==> r.effects == [Analyze(u.pick.uri), SaveDocument(doc)] + [ShowError])
      && (step.outcome.Pass? ==>
            r.effects == [Analyze(u.pick.uri), SaveDocument(doc)] + Notify(notify) +
              (if a.extractedEvents != [] then [ScheduleOffer(a.extractedEvents)] else []))
      && Offered(r) == (if step.outcome.Pass? then a.extractedEvents else [])
  {
  }

  /**
   * A successful analysis with a fresh id stores exactly one new document, and it reads back as
   * completed with the analysis's summary, category, context and embedding.
   */
  lemma AnalyzedSavesOneCompletedDocument(s: Snapshot, u: Upload, notify: bool)
    requires u.pick.Picked? && u.analysis.Some? && u.docId !in s.documents
    ensures var r := PickImageSpec(s, u, notify);
      var a := u.analysis.value;
      var back := ReadDocument(r.store.documents[u.docId]);
      && r.store.documents.Keys == s.documents.Keys + {u.docId}
      && (forall id :: id in s.documents ==> r.store.documents[id] == s.documents[id])
      && back.status == DocumentStatus.Completed && back.uri == u.pick.uri
      && back.summary == Some(a.summary) && back.category == Some(a.category)
      && back.context == Some(a.contextText) && back.embedding == Some(a.embedding)
  {
    AnalyzedAttempt(s, u, notify);
    var doc := NewDocument(u.pick.uri, u.analysis.value, u.docId, u.uploadDate, u.timeLabel);
    var rows := s.documents[u.docId := DocumentRowOf(doc)];
    assert PickImageSpec(s, u, notify).store.documents == rows;
  }

  /** After the analysis and the document write, a tail without writes adds no other write. */
  lemma SavedThenTail(uri: string, doc: MedicalDocument, tail: seq<Effect>)
    requires forall j :: 0 <= j < |tail| ==> !tail[j].SaveDocument?
    ensures var e := [Analyze(uri), SaveDocument(doc)] + tail;
      && (forall k :: 0 <= k < |e| && e[k].SaveDocument? ==> k == 1)
      && (forall k :: 0 <= k < |e| && e[k].ScheduleOffer? ==> k > 1)
  {
    var e := [Analyze(uri), SaveDocument(doc)] + tail;
    forall k | 2 <= k < |e|
      ensures !e[k].SaveDocument?
    {
      assert e[k] == tail[k - 2];
    }
  }

  /**
   * A picked image gets its document written exactly when the analysis succeeded; the write is
   * the second effect, there is no other, and any offer comes after it.
   */
  lemma {:induction false} OneDocumentWrite(s: Snapshot, u: Upload, notify: bool)
    requires u.pick.Picked?
    ensures var r := PickImageSpec(s, u, notify);
      && (u.analysis.Some? <==> |r.effects| >= 2 && r.effects[1].SaveDocument?)
      && (forall k :: 0 <= k < |r.effects| && r.effects[k].SaveDocument? ==> k == 1)
      && (forall k :: 0 <= k < |r.effects| && r.effects[k].ScheduleOffer? ==> k > 1)
  {
    if u.analysis.Some? {
      AnalyzedAttempt(s, u, notify);
      var a := u.analysis.value;
      var doc := NewDocument(u.pick.uri, a, u.docId, u.uploadDate, u.timeLabel);
      if AddDocumentSpec(s, doc, u.tagWriteFails).outcome.Fail? {
        SavedThenTail(u.pick.uri, doc, [ShowError]);
      } else {
        SavedThenTail(u.pick.uri, doc, Notify(notify) + (if a.extractedEvents != [] then [ScheduleOffer(a.extractedEvents)] else []));
      }
    }
  }

  /** With no extracted events the attempt ends with the document stored and nothing offered. */
  lemma NoEventsNoOffer(s: Snapshot, u: Upload, notify: bool)
    requires u.pick.Picked? && u.analysis.Some? && u.analysis.value.extractedEvents == []
    ensures var r := PickImageSpec(s, u, notify);
      && Offered(r) == [] && r.store.events == s.events
      && (forall k :: 0 <= k < |r.effects| ==> !r.effects[k].ScheduleOffer?)
      && (r.outcome == DocumentSaved <==> u.docId !in s.documents && !(u.analysis.value.category != "" && u.tagWriteFails))
  {
    AnalyzedAttempt(s, u, notify);
  }

  // ---------------------------------------------------------------- alertEventsFound

  datatype Decision = No | Yes

  /** The candidate as written: its own fields, with `id` replaced by a generated one. */
  function WithId(e: MedicalEvent, id: string): (r: MedicalEvent)
    ensures r.id == id && r.(id := e.id) == e
  {
    e.(id := id)
  }

  /** How far the "Yes" loop got: rows written, whether a write threw, and the events table. */
  datatype Batch = Batch(saved: nat, failed: bool, rows: map<string, EventRow>)

  /**
   * The "Yes" loop on the events table: one insert per candidate, in list order, each under the
   * generated id `ids[k]`; the first insert whose id is already a key throws and ends the loop.
   */
  function SaveCandidates(rows: map<string, EventRow>, events: seq<MedicalEvent>, ids: seq<string>): (b: Batch)
    requires |ids| == |events|
    ensures b.saved <= |events| && (b.failed || b.saved == |events|)
    ensures b.failed ==> b.saved < |events| && ids[b.saved] in b.rows
    decreases |events|
  {
    if |events| == 0 then Batch(0, false, rows)
    else
      var n := |events| - 1;
      var b := SaveCandidates(rows, events[..n], ids[..n]);
      if b.failed then b
      else if ids[n] in b.rows then Batch(b.saved, true, b.rows)
      else
        Batch(b.saved + 1, false, b.rows[ids[n] := EventRowOf(WithId(events[n], ids[n]))])
  }

  /** The number of addEvent calls the loop made: the saved ones and the one that threw. */
  function Tried(b: Batch): nat {
    if b.failed then b.saved + 1 else b.saved
  }

  /** The first `count` writes of the loop, in list order. */
  function Writes(events: seq<MedicalEvent>, ids: seq<string>, count: nat): (w: seq<Effect>)
    requires count <= |events| == |ids|
    ensures |w| == count
    ensures forall k :: 0 <= k < count ==> w[k] == SaveEvent(WithId(events[k], ids[k]))
  {
    seq(count, k requires 0 <= k < count => SaveEvent(WithId(events[k], ids[k])))
  }

  /** One more write extends the log of writes by that write. */
  lemma WritesSnoc(prefix: seq<Effect>, events: seq<MedicalEvent>, ids: seq<string>, i: nat)
    requires i < |events| == |ids|
    ensures prefix + Writes(events, ids, i) + [SaveEvent(WithId(events[i], ids[i]))] == prefix + Writes(events, ids, i + 1)
  {
    var w := Writes(events, ids, i + 1);
    assert Writes(events, ids, i) + [SaveEvent(WithId(events[i], ids[i]))] == w;
  }

  /**
   * Each saved candidate is stored under its generated id, which was free before the loop, and
   * the rows stored before the loop are untouched.
   */
  lemma {:induction false} BatchRows(rows: map<string, EventRow>, events: seq<MedicalEvent>, ids: seq<string>)
    requires |ids| == |events|
    ensures var b := SaveCandidates(rows, events, ids);
      && (forall k :: 0 <= k < b.saved ==>
            ids[k] !in rows && ids[k] in b.rows && b.rows[ids[k]] == EventRowOf(WithId(events[k], ids[k])))
      && (forall id :: id in rows ==> id in b.rows && b.rows[id] == rows[id])
    decreases |events|
  {
    if |events| != 0 {
      var n := |events| - 1;
      BatchRows(rows, events[..n], ids[..n]);
      var b := SaveCandidates(rows, events[..n], ids[..n]);
      var r := SaveCandidates(rows, events, ids);
      if b.failed || ids[n] in b.rows {
        assert r.rows == b.rows && r.saved == b.saved;
        forall k | 0 <= k < r.saved
          ensures ids[k] !in rows && ids[k] in r.rows && r.rows[ids[k]] == EventRowOf(WithId(events[k], ids[k]))
        {
          assert events[..n][k] == events[k] && ids[..n][k] == ids[k];
        }
      } else {
        assert r.rows == b.rows[ids[n] := EventRowOf(WithId(events[n], ids[n]))] && r.saved == n + 1;
        forall k | 0 <= k < r.saved
          ensures ids[k] !in rows && ids[k] in r.rows && r.rows[ids[k]] == EventRowOf(WithId(events[k], ids[k]))
        {
          if k < n {
            assert events[..n][k] == events[k] && ids[..n][k] == ids[k];
            assert ids[k] in b.rows && ids[k] != ids[n];
            assert r.rows[ids[k]] == b.rows[ids[k]];
          }
        }
      }
    }
  }

  /** Every row is stored under its own event id. */
  ghost predicate KeyedById(rows: map<string, EventRow>) {
    forall id :: id in rows ==> rows[id].id == id
  }

  /** A row the loop writes is keyed by its event's id, as every row before the loop was. */
  lemma {:induction false} BatchKeyedById(rows: map<string, EventRow>, events: seq<MedicalEvent>, ids: seq<string>)
    requires |ids| == |events|
    requires KeyedById(rows)
    ensures KeyedById(SaveCandidates(rows, events, ids).rows)
    decreases |events|
  {
    if |events| != 0 {
      var n := |events| - 1;
      BatchKeyedById(rows, events[..n], ids[..n]);
      var b := SaveCandidates(rows, events[..n], ids[..n]);
      var r := SaveCandidates(rows, events, ids);
      if b.failed || ids[n] in b.rows {
        assert r.rows == b.rows;
      } else {
        var row := EventRowOf(WithId(events[n], ids[n]));
        assert r.rows == b.rows[ids[n] := row] && row.id == ids[n];
      }
    }
  }

  /** The loop adds no key but the generated ids of the candidates it saved. */
  lemma {:induction false} BatchKeys(rows: map<string, EventRow>, events: seq<MedicalEvent>, ids: seq<string>)
    requires |ids| == |events|
    ensures var b := SaveCandidates(rows, events, ids);
      forall id :: id in b.rows ==> id in rows || id in ids[..b.saved]
    decreases |events|
  {
    if |events| != 0 {
      var n := |events| - 1;
      BatchKeys(rows, events[..n], ids[..n]);
      var b := SaveCandidates(rows, events[..n], ids[..n]);
      assert ids[..n][..b.saved] == ids[..b.saved];
      if !b.failed && ids[n] !in b.rows {
        assert ids[..n + 1] == ids[..n] + [ids[n]];
      }
    }
  }

  /** Once an insert has thrown, no later candidate is tried: the loop is where it was then. */
  lemma {:induction false} FailureStopsBatch(rows: map<string, EventRow>, events: seq<MedicalEvent>, ids: seq<string>, i: nat)
    requires |ids| == |events| && i <= |events|
    requires SaveCandidates(rows, events[..i], ids[..i]).failed
    ensures SaveCandidates(rows, events, ids) == SaveCandidates(rows, events[..i], ids[..i])
    decreases |events|
  {
    if i == |events| {
      assert events[..i] == events && ids[..i] == ids;
    } else {
      var n := |events| - 1;
      assert events[..n][..i] == events[..i] && ids[..n][..i] == ids[..i];
      FailureStopsBatch(rows, events[..n], ids[..n], i);
    }
  }

  /** Distinct ids that the events table does not hold yet save every candidate. */
  lemma {:induction false} FreshIdsSaveEveryCandidate(rows: map<string, EventRow>, events: seq<MedicalEvent>, ids: seq<string>)
    requires |ids| == |events|
    requires forall j, k :: 0 <= j < k < |ids| ==> ids[j] != ids[k]
    requires forall k :: 0 <= k < |ids| ==> ids[k] !in rows
    ensures !SaveCandidates(rows, events, ids).failed
    ensures SaveCandidates(rows, events, ids).saved == |events|
    decreases |events|
  {
    if |events| != 0 {
      var n := |events| - 1;
      FreshIdsSaveEveryCandidate(rows, events[..n], ids[..n]);
      BatchKeys(rows, events[..n], ids[..n]);
      var b := SaveCandidates(rows, events[..n], ids[..n]);
      assert ids[n] !in ids[..n];
      assert ids[n] !in b.rows;
    }
  }

  /** What the confirmation did: the store afterwards and its effects, in order. */
  datatype Confirmation = Confirmation(store: Snapshot, effects: seq<Effect>)

  /**
   * The store after the loop: untouched when there was nothing to write; otherwise the first
   * addEvent has opened it (initDB) and the events table is the loop's.
   */
  function BatchStore(s: Snapshot, events: seq<MedicalEvent>, b: Batch): Snapshot {
    if |events| == 0 then s else OpenSpec(s).(events := b.rows)
  }

  /**
   * One turn of the loop is one addEvent call on the store the earlier turns left: it throws
   * exactly when the loop stops there, and leaves the store the loop describes.
   */
  lemma SaveOne(s: Snapshot, events: seq<MedicalEvent>, ids: seq<string>, i: nat)
    requires |ids| == |events| && i < |events|
    requires !SaveCandidates(s.events, events[..i], ids[..i]).failed
    ensures var before := BatchStore(s, events[..i], SaveCandidates(s.events, events[..i], ids[..i]));
      var b := SaveCandidates(s.events, events[..i + 1], ids[..i + 1]);
      var step := AddEventSpec(before, WithId(events[i], ids[i]));
      && step.state == BatchStore(s, events[..i + 1], b)
      && (step.outcome.Fail? <==> b.failed)
      && (b.failed ==> b.saved == i)
  {
    assert events[..i + 1][..i] == events[..i] && ids[..i + 1][..i] == ids[..i];
  }

  /**
   * alertEventsFound: ask; on "No" stop; on "Yes" run the loop and, only when no insert threw,
   * show the success alert and refresh.
   */
  function AlertEventsFoundSpec(s: Snapshot, events: seq<MedicalEvent>, decision: Decision, ids: seq<string>, notify: bool): (r: Confirmation)
    requires |ids| == |events|
    ensures r.effects != [] && r.effects[0] == AskUser(|events|)
    ensures decision == No ==> r == Confirmation(s, [AskUser(|events|)])
    ensures decision == Yes ==> r.store.events == SaveCandidates(s.events, events, ids).rows
    ensures r.store.documents == s.documents && r.store.tags == s.tags && r.store.nextTagId == s.nextTagId
  {
    match decision
    case No => Confirmation(s, [AskUser(|events|)])
    case Yes =>
      var b := SaveCandidates(s.events, events, ids);
      var tail := if b.failed then [] else [ShowSuccess] + Notify(notify);
      Confirmation(BatchStore(s, events, b), [AskUser(|events|)] + Writes(events, ids, Tried(b)) + tail)
  }

  /** The "Yes" branch of AlertEventsFoundSpec, spelled out for the method that follows it. */
  lemma ConfirmedYes(s: Snapshot, events: seq<MedicalEvent>, ids: seq<string>, notify: bool)
    requires |ids| == |events|
    ensures var b := SaveCandidates(s.events, events, ids);
      var c := AlertEventsFoundSpec(s, events, Yes, ids, notify);
      && c.store == BatchStore(s, events, b)
      && c.effects == [AskUser(|events|)] + Writes(events, ids, Tried(b)) + (if b.failed then [] else [ShowSuccess] + Notify(notify))
  {
  }

  /** The "Yes" branch when the write of candidate `i` threw: the batch stops there. */
  lemma ConfirmedFailure(s: Snapshot, events: seq<MedicalEvent>, ids: seq<string>, i: nat, notify: bool)
    requires i < |events| == |ids|
    requires SaveCandidates(s.events, events[..i + 1], ids[..i + 1]).failed
    requires SaveCandidates(s.events, events[..i + 1], ids[..i + 1]).saved == i
    ensures var c := AlertEventsFoundSpec(s, events, Yes, ids, notify);
      && c.store == BatchStore(s, events[..i + 1], SaveCandidates(s.events, events[..i + 1], ids[..i + 1]))
      && c.effects == [AskUser(|events|)] + Writes(events, ids, i + 1)
  {
    var b := SaveCandidates(s.events, events[..i + 1], ids[..i + 1]);
    FailureStopsBatch(s.events, events, ids, i + 1);
    assert SaveCandidates(s.events, events, ids) == b;
    assert Tried(b) == i + 1;
    ConfirmedYes(s, events, ids, notify);
    var asked := [AskUser(|events|)] + Writes(events, ids, i + 1);
    assert asked + [] == asked;
  }

  /** The "Yes" branch when every write went through. */
  lemma ConfirmedSuccess(s: Snapshot, events: seq<MedicalEvent>, ids: seq<string>, notify: bool)
    requires |events| == |ids|
    requires !SaveCandidates(s.events, events[..|events|], ids[..|ids|]).failed
    ensures var c := AlertEventsFoundSpec(s, events, Yes, ids, notify);
      && c.store == BatchStore(s, events[..|events|], SaveCandidates(s.events, events[..|events|], ids[..|ids|]))
      && c.effects == [AskUser(|events|)] + Writes(events, ids, |events|) + ([ShowSuccess] + Notify(notify))
  {
    ConfirmedYes(s, events, ids, notify);
    assert events[..|events|] == events && ids[..|ids|] == ids;
  }

  /** The success alert shows exactly when the answer was "Yes" and every candidate was saved. */
  lemma {:induction false} SuccessOnlyWhenAllSaved(s: Snapshot, events: seq<MedicalEvent>, decision: Decision, ids: seq<string>, notify: bool)
    requires |ids| == |events|
    ensures var r := AlertEventsFoundSpec(s, events, decision, ids, notify);
      ShowSuccess in r.effects <==> decision == Yes && SaveCandidates(s.events, events, ids).saved == |events|
  {
    if decision == Yes {
      ConfirmedYes(s, events, ids, notify);
      var b := SaveCandidates(s.events, events, ids);
      var w := [AskUser(|events|)] + Writes(events, ids, Tried(b));
      assert ShowSuccess !in w by {
        forall k | 0 <= k < |w| ensures w[k] != ShowSuccess {
          if k > 0 { assert w[k] == Writes(events, ids, Tried(b))[k - 1]; }
        }
      }
      if !b.failed {
        var r := AlertEventsFoundSpec(s, events, decision, ids, notify);
        assert r.effects[|w|] == ShowSuccess;
      }
    }
  }

  /** In the ask, the writes and a tail without writes, effect k is the write of candidate k - 1. */
  lemma WritesThenTail(events: seq<MedicalEvent>, ids: seq<string>, n: nat, tail: seq<Effect>)
    requires n <= |events| == |ids|
    requires forall j :: 0 <= j < |tail| ==> !tail[j].SaveEvent?
    ensures var e := [AskUser(|events|)] + Writes(events, ids, n) + tail;
      forall k :: 0 < k < |e| && e[k].SaveEvent? ==>
        k - 1 < |events| && e[k] == SaveEvent(WithId(events[k - 1], ids[k - 1]))
  {
    var w := Writes(events, ids, n);
    var e := [AskUser(|events|)] + w + tail;
    forall k | 0 < k < |e| && e[k].SaveEvent?
      ensures k - 1 < |events| && e[k] == SaveEvent(WithId(events[k - 1], ids[k - 1]))
    {
      assert e[k] == w[k - 1];
    }
  }

  /** The writes are logged in list order: effect k is the write of candidate k - 1. */
  lemma {:induction false} WritesInCandidateOrder(s: Snapshot, events: seq<MedicalEvent>, decision: Decision, ids: seq<string>, notify: bool)
    requires |ids| == |events|
    ensures var r := AlertEventsFoundSpec(s, events, decision, ids, notify);
      forall k :: 0 < k < |r.effects| && r.effects[k].SaveEvent? ==>
        k - 1 < |events| && r.effects[k] == SaveEvent(WithId(events[k - 1], ids[k - 1]))
  {
    if decision == Yes {
      ConfirmedYes(s, events, ids, notify);
      var b := SaveCandidates(s.events, events, ids);
      WritesThenTail(events, ids, Tried(b), if b.failed then [] else [ShowSuccess] + Notify(notify));
    }
  }

  /** No write is logged after the one that threw. */
  lemma {:induction false} NoWriteAfterFailure(s: Snapshot, events: seq<MedicalEvent>, ids: seq<string>, notify: bool)
    requires |ids| == |events|
    ensures var r := AlertEventsFoundSpec(s, events, Yes, ids, notify);
      var tried := Tried(SaveCandidates(s.events, events, ids));
      |r.effects| - 1 >= tried && forall k :: tried < k < |r.effects| ==> !r.effects[k].SaveEvent?
  {
    ConfirmedYes(s, events, ids, notify);
    var b := SaveCandidates(s.events, events, ids);
    var r := AlertEventsFoundSpec(s, events, Yes, ids, notify);
    var w := Writes(events, ids, Tried(b));
    var tail := if b.failed then [] else [ShowSuccess] + Notify(notify);
    forall k | Tried(b) < k < |r.effects|
      ensures !r.effects[k].SaveEvent?
    {
      assert r.effects[k] == tail[k - 1 - |w|];
    }
  }

  /** The confirmation keeps the store well formed and every tag pointing at its document. */
  lemma AlertEventsFoundKeepsWellFormed(s: Snapshot, events: seq<MedicalEvent>, decision: Decision, ids: seq<string>, notify: bool)
    requires |ids| == |events| && WellFormed(s)
    ensures WellFormed(AlertEventsFoundSpec(s, events, decision, ids, notify).store)
    ensures Referential(s) ==> Referential(AlertEventsFoundSpec(s, events, decision, ids, notify).store)
  {
    if decision == Yes {
      ConfirmedYes(s, events, ids, notify);
      BatchKeyedById(s.events, events, ids);
      BatchRows(s.events, events, ids);
    }
  }

  /** A saved upload whose category tag is written offers every extracted event. */
  lemma UploadOffersEvents(s: Snapshot, u: Upload, notify: bool)
    requires u.pick.Picked? && u.analysis.Some? && u.docId !in s.documents && !u.tagWriteFails
    ensures var p := PickImageSpec(s, u, notify);
      && p.outcome == DocumentSaved && Offered(p) == u.analysis.value.extractedEvents
      && u.docId in p.store.documents && p.store.events == s.events
  {
    AnalyzedAttempt(s, u, notify);
  }

  /**
   * The whole flow with fresh ids and a "Yes": the document and every extracted event end up
   * stored, each event under its new id, and the success alert is shown.
   */
  lemma UploadThenConfirm(s: Snapshot, u: Upload, notify: bool, ids: seq<string>)
    requires u.pick.Picked? && u.analysis.Some? && u.docId !in s.documents && !u.tagWriteFails
    requires |ids| == |u.analysis.value.extractedEvents|
    requires forall j, k :: 0 <= j < k < |ids| ==> ids[j] != ids[k]
    requires forall k :: 0 <= k < |ids| ==> ids[k] !in s.events
    ensures var p := PickImageSpec(s, u, notify);
      var events := u.analysis.value.extractedEvents;
      var c := AlertEventsFoundSpec(p.store, events, Yes, ids, notify);
      && p.outcome == DocumentSaved && Offered(p) == events
      && u.docId in c.store.documents
      && (forall k :: 0 <= k < |events| ==>
            ids[k] in c.store.events && c.store.events[ids[k]] == EventRowOf(WithId(events[k], ids[k])))
      && ShowSuccess in c.effects
  {
    var p := PickImageSpec(s, u, notify);
    var events := u.analysis.value.extractedEvents;
    UploadOffersEvents(s, u, notify);
    FreshIdsSaveEveryCandidate(p.store.events, events, ids);
    BatchRows(p.store.events, events, ids);
    SuccessOnlyWhenAllSaved(p.store, events, Yes, ids, notify);
  }

  // ---------------------------------------------------------------- the component

  /**
   * The component's state: the spinner flag, the store it writes to and whether the parent
   * passed `onUploadComplete`. `log` records every effect with the spinner's state at the time.
   */
  class UploadFABs {
    const store: DatabaseService
    const notify: bool
    var isUploading: bool
    ghost var log: seq<Logged>

    /** Between presses the spinner is off. */
    ghost predicate Valid()
      reads this, store
    {
      store.Valid() && !isUploading
    }

    constructor(store: DatabaseService, notify: bool)
      requires store.Valid()
      ensures Valid() && this.store == store && this.notify == notify && log == []
    {
      this.store := store;
      this.notify := notify;
      isUploading := false;
      log := [];
    }

    /**
     * One press of the image button. Every effect happens with the spinner showing, and the
     * spinner is off again afterwards; `offer` is what the timer will pass to alertEventsFound.
     */
    method PickImage(u: Upload) returns (offer: seq<MedicalEvent>)
      requires Valid()
      modifies this, store
      ensures Valid()
      ensures var r := PickImageSpec(old(store.State()), u, notify);
        store.State() == r.store && log == old(log) + Flagged(r.effects, true) && offer == Offered(r)
    {
      if u.pick.Canceled? {
        return [];
      }
      var uri := u.pick.uri;
      isUploading := true;
      ghost var base := log;
      Emit(Analyze(uri), true, base, []);
      if u.analysis.None? {
        offer := Abort(base, [Analyze(uri)]);
        assert [Analyze(uri)] + [ShowError] == [Analyze(uri), ShowError];
        return;
      }
      AnalyzedAttempt(store.State(), u, notify);
      offer := SaveAnalysis(u, base);
    }

    /** pickImage after a successful analysis: store the document, then announce it. */
    method SaveAnalysis(u: Upload, ghost base: seq<Logged>) returns (offer: seq<MedicalEvent>)
      requires store.Valid() && isUploading && u.pick.Picked? && u.analysis.Some?
      requires log == base + Flagged([Analyze(u.pick.uri)], true)
      modifies this, store
      ensures store.Valid() && !isUploading
      ensures var a := u.analysis.value;
        var doc := NewDocument(u.pick.uri, a, u.docId, u.uploadDate, u.timeLabel);
        var step := AddDocumentSpec(old(store.State()), doc, u.tagWriteFails);
        && store.State() == step.state
        && (step.outcome.Fail? ==> offer == [] && log == base + Flagged([Analyze(u.pick.uri), SaveDocument(doc)] + [ShowError], true))
        && (step.outcome.Pass? ==> offer == a.extractedEvents && log == base + Flagged([Analyze(u.pick.uri), SaveDocument(doc)] +
              Notify(notify) + (if a.extractedEvents != [] then [ScheduleOffer(a.extractedEvents)] else []), true))
    {
      var a := u.analysis.value;
      var doc := NewDocument(u.pick.uri, a, u.docId, u.uploadDate, u.timeLabel);
      Emit(SaveDocument(doc), true, base, [Analyze(u.pick.uri)]);
      assert [Analyze(u.pick.uri)] + [SaveDocument(doc)] == [Analyze(u.pick.uri), SaveDocument(doc)];
      var written := store.AddDocument(doc, u.tagWriteFails);
      if written.Fail? {
        offer := Abort(base, [Analyze(u.pick.uri), SaveDocument(doc)]);
      } else {
        offer := Announce(a, base, [Analyze(u.pick.uri), SaveDocument(doc)]);
      }
    }

    /** The catch and finally blocks: the error alert, then the spinner stops. */
    method Abort(ghost base: seq<Logged>, ghost done: seq<Effect>) returns (offer: seq<MedicalEvent>)
      requires isUploading && log == base + Flagged(done, true)
      modifies `log, `isUploading
      ensures !isUploading && offer == [] && log == base + Flagged(done + [ShowError], true)
    {
      Emit(ShowError, true, base, done);
      isUploading := false;
      offer := [];
    }

    /** The end of the try block: refresh, schedule the offer when there are events, and stop the spinner. */
    method Announce(a: AnalyzeImageResponse, ghost base: seq<Logged>, ghost done: seq<Effect>) returns (offer: seq<MedicalEvent>)
      requires isUploading && log == base + Flagged(done, true)
      modifies `log, `isUploading
      ensures !isUploading && offer == a.extractedEvents
      ensures log == base + Flagged(done + Notify(notify) +
        (if a.extractedEvents != [] then [ScheduleOffer(a.extractedEvents)] else []), true)
    {
      ghost var told := done;
      if notify {
        Emit(Refresh, true, base, told);
        told := told + [Refresh];
      }
      assert told == done + Notify(notify);
      if a.extractedEvents != [] {
        Emit(ScheduleOffer(a.extractedEvents), true, base, told);
      } else {
        assert told == told + [];
      }
      offer := a.extractedEvents;
      isUploading := false;
    }

    /** Logs one effect of pickImage, which happen while the spinner shows. */
    ghost method Emit(e: Effect, uploading: bool, base: seq<Logged>, done: seq<Effect>)
      requires isUploading == uploading && log == base + Flagged(done, uploading)
      modifies `log
      ensures log == base + Flagged(done + [e], uploading)
    {
      log := log + [Logged(e, isUploading)];
      FlaggedSnoc(done, e, uploading);
    }

    /**
     * The confirmation the timer opens. The answer and the generated ids are inputs; the writes
     * happen with the spinner off, after pickImage has finished.
     */
    method AlertEventsFound(events: seq<MedicalEvent>, decision: Decision, ids: seq<string>)
      requires Valid() && |ids| == |events|
      modifies `log, store
      ensures Valid()
      ensures var c := AlertEventsFoundSpec(old(store.State()), events, decision, ids, notify);
        store.State() == c.store && log == old(log) + Flagged(c.effects, false)
    {
      ghost var s0, base := store.State(), log;
      ghost var asked := [AskUser(|events|)];
      Emit(AskUser(|events|), false, base, []);
      assert [] + asked == asked;
      if decision == No {
        return;
      }
      var i := 0;
      while i < |events|
        invariant i <= |events| && store.Valid() && !isUploading
        invariant !SaveCandidates(s0.events, events[..i], ids[..i]).failed
        invariant store.State() == BatchStore(s0, events[..i], SaveCandidates(s0.events, events[..i], ids[..i]))
        invariant log == base + Flagged(asked + Writes(events, ids, i), false)
      {
        var failed := SaveNext(s0, events, ids, i, base, asked);
        if failed {
          ConfirmedFailure(s0, events, ids, i, notify);
          return;
        }
        i := i + 1;
      }
      ConfirmedSuccess(s0, events, ids, notify);
      Celebrate(base, asked + Writes(events, ids, i));
    }

    /** One turn of the loop: write the next candidate under its generated id. */
    method SaveNext(ghost s0: Snapshot, events: seq<MedicalEvent>, ids: seq<string>, i: nat,
                    ghost base: seq<Logged>, ghost asked: seq<Effect>) returns (failed: bool)
      requires store.Valid() && !isUploading && i < |events| == |ids|
      requires !SaveCandidates(s0.events, events[..i], ids[..i]).failed
      requires store.State() == BatchStore(s0, events[..i], SaveCandidates(s0.events, events[..i], ids[..i]))
      requires log == base + Flagged(asked + Writes(events, ids, i), false)
      modifies `log, store
      ensures store.Valid()
      ensures var b := SaveCandidates(s0.events, events[..i + 1], ids[..i + 1]);
        && failed == b.failed && (failed ==> b.saved == i)
        && store.State() == BatchStore(s0, events[..i + 1], b)
      ensures log == base + Flagged(asked + Writes(events, ids, i + 1), false)
    {
      SaveOne(s0, events, ids, i);
      var written := store.AddEvent(WithId(events[i], ids[i]));
      Emit(SaveEvent(WithId(events[i], ids[i])), false, base, asked + Writes(events, ids, i));
      WritesSnoc(asked, events, ids, i);
      failed := written.Fail?;
    }

    /** The end of the "Yes" handler when every write went through: the success alert, then the refresh. */
    method Celebrate(ghost base: seq<Logged>, ghost done: seq<Effect>)
      requires !isUploading && log == base + Flagged(done, false)
      modifies `log
      ensures log == base + Flagged(done + ([ShowSuccess] + Notify(notify)), false)
    {
      Emit(ShowSuccess, false, base, done);
      if notify {
        Emit(Refresh, false, base, done + [ShowSuccess]);
        assert done + [ShowSuccess] + [Refresh] == done + ([ShowSuccess] + Notify(notify));
      } else {
        assert done + [ShowSuccess] == done + ([ShowSuccess] + Notify(notify));
      }
    }
  }
}
