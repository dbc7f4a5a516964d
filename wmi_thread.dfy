/**
 * WmiPrinterStatusThread (src/qz/printer/status/WmiPrinterStatusThread.java):
 * the per-printer tracker that folds Windows spooler change notifications
 * into printer and job status events.
 *
 * The class keeps the tracker's fields and updates them in place as the
 * source does; the events it hands to StatusMonitor.statusChanged are
 * appended to `published`. The decoding tables (NativeStatus.fromWmi*, the
 * raw codes of WmiPrinterStatusMap and WmiJobStatusMap) and the localized
 * placeholder document names are parameters in `Config`.
 */
module WmiStatusThread {
  import opened JavaStrings
  import opened Bits32

  /** Winspool PRINTER_ATTRIBUTE_KEEPPRINTEDJOBS. */
  const KeepPrintedJobs: bv32 := 0x100
  /** Winspool PRINTER_ATTRIBUTE_WORK_OFFLINE. */
  const WorkOffline: bv32 := 0x400

  // Every bit test the tracker makes is a named predicate or function: the
  // solver then reasons about the tracker's state without expanding the
  // bit-vector operations, which it does slowly.

  /** Java's `(x & flag) > 0`. */
  predicate HasFlag(x: bv32, flag: bv32) {
    SignedPositive(x & flag)
  }

  /** Java's `(x & flag) == 0`. */
  predicate LacksFlag(x: bv32, flag: bv32) {
    x & flag == 0
  }

  /** Whether the attributes mark a printer that keeps printed jobs. */
  predicate HoldsJobs(attributes: bv32) {
    attributes & KeepPrintedJobs != 0
  }

  /** The constructor's signed test `> 0` agrees with decodeJobStatus's `!= 0`. */
  lemma HoldsJobsSigned(attributes: bv32)
    ensures HasFlag(attributes, KeepPrintedJobs) == HoldsJobs(attributes)
  {
    assert attributes & KeepPrintedJobs & 0x8000_0000 == 0;
  }

  /**
   * The constants the tracker reads from code outside this model:
   * the printer name, the placeholder document names (invalidNames), the
   * raw code of WmiPrinterStatusMap.ATTRIBUTE_WORK_OFFLINE, notOkMask (the
   * OR of the error raw codes) and the raw codes of the PRINTED, DELETED
   * and PRINTING job statuses.
   */
  datatype Config = Config(
    printerName: string,
    invalidNames: set<string>,
    attributeWorkOffline: bv32,
    notOkMask: bv32,
    printed: bv32,
    deleted: bv32,
    printing: bv32)

  /** One PRINTER_NOTIFY_INFO_DATA entry, by type and field. */
  datatype Notification =
    | PrinterStatusField(value: bv32)
    | PrinterAttributesField(value: bv32)
    | PrinterOtherField
    | JobDocumentField(id: int, document: string)
    | JobStatusField(id: int, value: bv32)
    | JobOtherField(id: int)
    | OtherType

  predicate IsPrinterType(d: Notification) {
    d.PrinterStatusField? || d.PrinterAttributesField? || d.PrinterOtherField?
  }

  /**
   * One call of StatusMonitor.statusChanged: the statuses decoded from a
   * printer code, the synthetic OK status, or the statuses decoded from the
   * bits reported for a job.
   */
  datatype Event =
    | PrinterStatuses(code: bv32)
    | PrinterOk
    | JobStatuses(jobId: int, code: bv32, docName: Option<string>)

  // ---------------------------------------------------------------------
  // Printer status

  /**
   * combineStatus: the status field with the non-overlapping
   * ATTRIBUTE_WORK_OFFLINE code added when the attributes say the printer
   * works offline.
   */
  function CombineStatus(statusField: bv32, attributeField: bv32, attributeWorkOffline: bv32): (r: bv32)
    ensures LacksFlag(attributeField, WorkOffline) ==> r == statusField
  {
    var workOfflineFlag := if LacksFlag(attributeField, WorkOffline) then 0 else attributeWorkOffline;
    statusField | workOfflineFlag
  }

  // The solver proves each bit-vector fact below at once on its own, but
  // not several of them in one query, nor beside the heap reasoning of the
  // tracker's methods: hence one fact per lemma, and none in a contract of
  // CombineStatus itself.

  /** No bit of the status field is ever cleared. */
  lemma CombineKeepsStatus(statusField: bv32, attributeField: bv32, attributeWorkOffline: bv32)
    ensures CombineStatus(statusField, attributeField, attributeWorkOffline) & statusField == statusField
  {
    var f := if LacksFlag(attributeField, WorkOffline) then 0 else attributeWorkOffline;
    OrKeepsLeft(statusField, f);
  }

  /** Without the WORK_OFFLINE attribute the status field is returned as it is. */
  lemma CombineOnline(statusField: bv32, attributeField: bv32, attributeWorkOffline: bv32)
    requires LacksFlag(attributeField, WorkOffline)
    ensures CombineStatus(statusField, attributeField, attributeWorkOffline) == statusField
  {
    OrZero(statusField);
  }

  /** A printer working offline shows the ATTRIBUTE_WORK_OFFLINE code. */
  lemma CombineAddsWorkOffline(statusField: bv32, attributeField: bv32, attributeWorkOffline: bv32)
    requires !LacksFlag(attributeField, WorkOffline)
    ensures CombineStatus(statusField, attributeField, attributeWorkOffline) & attributeWorkOffline == attributeWorkOffline
  {
    OrKeepsRight(statusField, attributeWorkOffline);
  }

  /** No bit outside the status field and the ATTRIBUTE_WORK_OFFLINE code is ever set. */
  lemma CombineAddsNothingElse(statusField: bv32, attributeField: bv32, attributeWorkOffline: bv32)
    ensures CombineStatus(statusField, attributeField, attributeWorkOffline) & !(statusField | attributeWorkOffline) == 0
  {
    var f := if LacksFlag(attributeField, WorkOffline) then 0 else attributeWorkOffline;
    OrWithin(statusField, f, attributeWorkOffline);
  }

  lemma OrKeepsLeft(a: bv32, b: bv32)
    ensures (a | b) & a == a
  {
  }

  lemma OrZero(a: bv32)
    ensures a | 0 == a
  {
  }

  lemma OrKeepsRight(a: bv32, b: bv32)
    ensures (a | b) & b == b
  {
  }

  lemma OrWithin(a: bv32, f: bv32, b: bv32)
    requires f == 0 || f == b
    ensures (a | f) & !(a | b) == 0
  {
  }

  predicate IsOk(status: bv32, notOkMask: bv32) {
    LacksFlag(status, notOkMask)
  }

  /**
   * What a printer notification publishes: nothing when the combined status
   * is unchanged; otherwise its decoded statuses, followed by a synthetic OK
   * when the printer has recovered.
   */
  function PrinterEvents(newStatus: bv32, lastStatus: bv32, wasOk: bool, notOkMask: bv32): (r: seq<Event>)
    ensures r == [] <==> newStatus == lastStatus
    ensures r != [] ==> r[0] == PrinterStatuses(newStatus)
    ensures PrinterOk in r <==> newStatus != lastStatus && IsOk(newStatus, notOkMask) && !wasOk && newStatus != 0
    ensures |r| <= 2
    ensures |r| == 2 <==> PrinterOk in r
    ensures |r| == 2 ==> r[1] == PrinterOk
  {
    if newStatus == lastStatus then []
    else [PrinterStatuses(newStatus)] + (if IsOk(newStatus, notOkMask) && !wasOk && newStatus != 0 then [PrinterOk] else [])
  }

  // ---------------------------------------------------------------------
  // Job status

  /** pendingJobStatuses.computeIfAbsent(id, ...).add(code). */
  function AppendCode(pending: map<int, seq<bv32>>, id: int, code: bv32): (r: map<int, seq<bv32>>)
    ensures r.Keys == pending.Keys + {id}
    ensures r[id] == (if id in pending then pending[id] else []) + [code]
    ensures r - {id} == pending - {id}
  {
    pending[id := (if id in pending then pending[id] else []) + [code]]
  }

  lemma AppendKeepsWellFormed(t: JobTables, id: int, code: bv32)
    requires WellFormed(t)
    ensures WellFormed(JobTables(t.docNames, AppendCode(t.pending, id, code), t.lastCodes))
  {
    var r := AppendCode(t.pending, id, code);
    forall j | j in r
      ensures r[j] != []
    {
      if j != id {
        assert j in r - {id};
        assert r[j] == (r - {id})[j] == (t.pending - {id})[j] == t.pending[j];
      }
    }
  }

  /** The bits of `code` that were not set in the previous code, when there are any. */
  function NewBits(code: bv32, previous: bv32): bv32 {
    code & !previous
  }

  function ReportOne(id: int, code: bv32, previous: bv32, doc: Option<string>): seq<Event> {
    var statusToReport := NewBits(code, previous);
    if statusToReport != 0 then [JobStatuses(id, statusToReport, doc)] else []
  }

  /** The code a job had before codes[k]: the stored one for k = 0. */
  function Previous(codes: seq<bv32>, k: nat, start: bv32): bv32
    requires k <= |codes|
  {
    if k == 0 then start else codes[k - 1]
  }

  /** What the loop over one job's pending codes reports, in arrival order. */
  function Reports(id: int, codes: seq<bv32>, start: bv32, doc: Option<string>): seq<Event> {
    if codes == [] then []
    else Reports(id, codes[..|codes| - 1], start, doc) +
         ReportOne(id, codes[|codes| - 1], Previous(codes, |codes| - 1, start), doc)
  }

  lemma ReportsStep(id: int, codes: seq<bv32>, j: nat, start: bv32, doc: Option<string>)
    requires j < |codes|
    ensures Reports(id, codes[..j + 1], start, doc) ==
            Reports(id, codes[..j], start, doc) + ReportOne(id, codes[j], Previous(codes, j, start), doc)
  {
    assert codes[..j + 1][..j] == codes[..j];
  }

  /**
   * The inner loop of sendPendingStatuses for one job: each code reports
   * the bits it sets that the code before it did not.
   */
  method ReportNewBits(id: int, codes: seq<bv32>, start: bv32, doc: Option<string>) returns (events: seq<Event>)
    ensures events == Reports(id, codes, start, doc)
  {
    events := [];
    var oldStatusCode := start;
    var j := 0;
    while j < |codes|
      invariant j <= |codes|
      invariant oldStatusCode == Previous(codes, j, start)
      invariant events == Reports(id, codes[..j], start, doc)
    {
      var code := codes[j];
      ReportsStep(id, codes, j, start, doc);
      var statusToReport := NewBits(code, oldStatusCode);
      if statusToReport != 0 {
        events := events + [JobStatuses(id, statusToReport, doc)];
      }
      oldStatusCode := code;
      j := j + 1;
    }
    assert codes[..|codes|] == codes;
  }

  /**
   * Every report is about this job and its document name, carries a
   * nonzero set of bits, and there is at most one per code.
   */
  lemma {:induction false} ReportsAreForTheJob(id: int, codes: seq<bv32>, start: bv32, doc: Option<string>)
    ensures |Reports(id, codes, start, doc)| <= |codes|
    ensures forall e :: e in Reports(id, codes, start, doc) ==>
              e.JobStatuses? && e.jobId == id && e.docName == doc && e.code != 0
  {
    if codes != [] {
      ReportsAreForTheJob(id, codes[..|codes| - 1], start, doc);
    }
  }

  /** A code repeated right after itself reports nothing. */
  lemma RepeatReportsNothing(id: int, code: bv32, doc: Option<string>)
    ensures ReportOne(id, code, code, doc) == []
  {
    assert NewBits(code, code) == 0;
  }

  /**
   * The stored code is replaced, not accumulated: a bit that clears and
   * comes back is reported again (with an OR-ed history the third code
   * would report nothing).
   */
  lemma ReportsAgainstLastCodeOnly(id: int, doc: Option<string>)
    ensures Reports(id, [1, 2, 1], 0, doc) ==
            [JobStatuses(id, 1, doc), JobStatuses(id, 2, doc), JobStatuses(id, 1, doc)]
  {
    var c1: seq<bv32> := [1];
    var c2: seq<bv32> := [1, 2];
    var c3: seq<bv32> := [1, 2, 1];
    assert c1[..0] == [] && c2[..1] == c1 && c3[..2] == c2;
    assert NewBits(1, 0) == 1 && NewBits(2, 1) == 2 && NewBits(1, 2) == 1;
    assert Reports(id, c1, 0, doc) == [JobStatuses(id, 1, doc)];
    assert Reports(id, c2, 0, doc) == Reports(id, c1, 0, doc) + ReportOne(id, 2, 1, doc);
    assert Reports(id, c3, 0, doc) == Reports(id, c2, 0, doc) + ReportOne(id, 1, 2, doc);
  }

  /**
   * Whether the last code of a job ends it: DELETED, or, for a printer that
   * keeps printed jobs, PRINTED too, but then never while PRINTING is set.
   * The `> 0` tests are Java's signed comparisons.
   */
  function IsFinalCode(cfg: Config, holdsJobs: bool, code: bv32): (r: bool)
    ensures !holdsJobs ==> (r <==> HasFlag(code, cfg.deleted))
    ensures holdsJobs && !LacksFlag(code, cfg.printing) ==> !r
    ensures holdsJobs && LacksFlag(code, cfg.printing) ==>
              (r <==> HasFlag(code, cfg.deleted) || HasFlag(code, cfg.printed))
  {
    var isFinal := HasFlag(code, cfg.deleted);
    if holdsJobs then (isFinal || HasFlag(code, cfg.printed)) && LacksFlag(code, cfg.printing)
    else isFinal
  }

  /** The three job maps of the tracker. */
  datatype JobTables = JobTables(
    docNames: map<int, string>,
    pending: map<int, seq<bv32>>,
    lastCodes: map<int, bv32>)

  /** Every pending list holds at least one code: lists are created by an add. */
  predicate WellFormed(t: JobTables) {
    forall id :: id in t.pending ==> t.pending[id] != []
  }

  function DocName(t: JobTables, id: int): Option<string> {
    if id in t.docNames then Some(t.docNames[id]) else None
  }

  /** A job whose document name is still a placeholder waits. */
  predicate Waiting(cfg: Config, t: JobTables, id: int) {
    DocName(t, id).Some? && DocName(t, id).value in cfg.invalidNames
  }

  /** The double-"printed" case: a held job with no name and only PRINTED pending. */
  predicate DoublePrinted(cfg: Config, holdsJobs: bool, t: JobTables, id: int)
    requires id in t.pending
  {
    holdsJobs && DocName(t, id).None? && t.pending[id] == [cfg.printed]
  }

  /** What reporting the pending codes of a job publishes. */
  function JobReports(t: JobTables, id: int): seq<Event>
    requires id in t.pending
  {
    Reports(id, t.pending[id], if id in t.lastCodes then t.lastCodes[id] else 0, DocName(t, id))
  }

  /**
   * The tables once a job's codes are reported: the entry is removed, and
   * the job is forgotten if its last code is final, or keeps that code as
   * its stored one otherwise.
   */
  function Settle(cfg: Config, holdsJobs: bool, t: JobTables, id: int): JobTables
    requires id in t.pending && t.pending[id] != []
  {
    var code := t.pending[id][|t.pending[id]| - 1];
    if IsFinalCode(cfg, holdsJobs, code) then
      JobTables(t.docNames - {id}, t.pending - {id}, t.lastCodes - {id})
    else
      JobTables(t.docNames, t.pending - {id}, t.lastCodes[id := code])
  }

  /** The loop body of sendPendingStatuses for one pending job. */
  function FlushJob(cfg: Config, holdsJobs: bool, t: JobTables, id: int): (r: (JobTables, seq<Event>))
    requires WellFormed(t) && id in t.pending
    ensures Waiting(cfg, t, id) ==> r == (t, [])
    ensures !Waiting(cfg, t, id) ==> r.0.pending == t.pending - {id}
    ensures DoublePrinted(cfg, holdsJobs, t, id) && !Waiting(cfg, t, id) ==>
              r.1 == [] && r.0.docNames == t.docNames && r.0.lastCodes == t.lastCodes - {id}
    ensures r.0.docNames - {id} == t.docNames - {id}
    ensures r.0.lastCodes - {id} == t.lastCodes - {id}
    ensures r.0.pending.Keys <= t.pending.Keys
    ensures WellFormed(r.0)
  {
    if Waiting(cfg, t, id) then (t, [])
    else if DoublePrinted(cfg, holdsJobs, t, id) then
      (JobTables(t.docNames, t.pending - {id}, t.lastCodes - {id}), [])
    else (Settle(cfg, holdsJobs, t, id), JobReports(t, id))
  }

  /**
   * A flushed job that is not final keeps its last code as the stored one;
   * a final one loses its name and stored code.
   */
  lemma FlushedJobState(cfg: Config, holdsJobs: bool, t: JobTables, id: int)
    requires WellFormed(t) && id in t.pending
    requires !Waiting(cfg, t, id) && !DoublePrinted(cfg, holdsJobs, t, id)
    ensures var r := FlushJob(cfg, holdsJobs, t, id);
            var last := t.pending[id][|t.pending[id]| - 1];
            (IsFinalCode(cfg, holdsJobs, last) ==> id !in r.0.docNames && id !in r.0.lastCodes) &&
            (!IsFinalCode(cfg, holdsJobs, last) ==> r.0.docNames == t.docNames && r.0.lastCodes == t.lastCodes[id := last])
  {
  }

  /** FlushJob in the double-"printed" case. */
  lemma FlushDoublePrinted(cfg: Config, holdsJobs: bool, t: JobTables, id: int)
    requires WellFormed(t) && id in t.pending
    requires !Waiting(cfg, t, id) && DoublePrinted(cfg, holdsJobs, t, id)
    ensures FlushJob(cfg, holdsJobs, t, id) == (JobTables(t.docNames, t.pending - {id}, t.lastCodes - {id}), [])
  {
  }

  /** sendPendingStatuses over the jobs in iteration order `order`. */
  function SendAll(cfg: Config, holdsJobs: bool, t: JobTables, order: seq<int>): (r: (JobTables, seq<Event>))
    requires WellFormed(t)
    ensures WellFormed(r.0)
    ensures r.0.pending.Keys <= t.pending.Keys
  {
    if order == [] then (t, [])
    else
      var prior := SendAll(cfg, holdsJobs, t, order[..|order| - 1]);
      var id := order[|order| - 1];
      if id in prior.0.pending then
        var step := FlushJob(cfg, holdsJobs, prior.0, id);
        (step.0, prior.1 + step.1)
      else prior
  }

  lemma SendAllStep(cfg: Config, holdsJobs: bool, t: JobTables, order: seq<int>, i: nat)
    requires WellFormed(t) && i < |order|
    ensures var prior := SendAll(cfg, holdsJobs, t, order[..i]);
            SendAll(cfg, holdsJobs, t, order[..i + 1]) ==
              if order[i] in prior.0.pending then
                (FlushJob(cfg, holdsJobs, prior.0, order[i]).0, prior.1 + FlushJob(cfg, holdsJobs, prior.0, order[i]).1)
              else prior
  {
    assert order[..i + 1][..i] == order[..i];
  }

  /** A pass over jobs none of which is pending changes nothing and publishes nothing. */
  lemma {:induction false} SendAllSkipsAbsent(cfg: Config, holdsJobs: bool, t: JobTables, order: seq<int>)
    requires WellFormed(t)
    requires forall i :: 0 <= i < |order| ==> order[i] !in t.pending
    ensures SendAll(cfg, holdsJobs, t, order) == (t, [])
  {
    if order != [] {
      SendAllSkipsAbsent(cfg, holdsJobs, t, order[..|order| - 1]);
    }
  }

  /** The jobs of `ids` still pending are all waiting for a real document name. */
  predicate Settled(cfg: Config, t: JobTables, ids: set<int>) {
    forall id :: id in t.pending && id in ids ==> Waiting(cfg, t, id)
  }

  /** After a pass, the only jobs left pending are the waiting ones. */
  lemma {:induction false} SendAllSettles(cfg: Config, holdsJobs: bool, t: JobTables, order: seq<int>)
    requires WellFormed(t)
    ensures Settled(cfg, SendAll(cfg, holdsJobs, t, order).0, set id | id in order)
  {
    if order != [] {
      var init := order[..|order| - 1];
      var id := order[|order| - 1];
      SendAllSettles(cfg, holdsJobs, t, init);
      var prior := SendAll(cfg, holdsJobs, t, init).0;
      var r := SendAll(cfg, holdsJobs, t, order).0;
      assert forall j :: j in order ==> j in init || j == id;
      if id in prior.pending {
        var step := FlushJob(cfg, holdsJobs, prior, id);
        forall j | j in r.pending && j in order
          ensures Waiting(cfg, r, j)
        {
          if j != id {
            assert j in step.0.pending - {id};
            assert j in prior.pending;
            assert j in init;
            assert DocName(r, j) == DocName(prior, j) by {
              assert j in r.docNames <==> j in r.docNames - {id};
              assert j in prior.docNames <==> j in prior.docNames - {id};
              if j in r.docNames {
                assert r.docNames[j] == (r.docNames - {id})[j];
                assert prior.docNames[j] == (prior.docNames - {id})[j];
              }
            }
          }
        }
      }
    }
  }

  /** When every pending job is waiting, a pass changes nothing and publishes nothing. */
  lemma {:induction false} SettledPassIsQuiet(cfg: Config, holdsJobs: bool, t: JobTables, order: seq<int>)
    requires WellFormed(t) && Settled(cfg, t, t.pending.Keys)
    ensures SendAll(cfg, holdsJobs, t, order) == (t, [])
  {
    if order != [] {
      var id := order[|order| - 1];
      SettledPassIsQuiet(cfg, holdsJobs, t, order[..|order| - 1]);
      if id in t.pending {
        assert Waiting(cfg, t, id);
        var step := FlushJob(cfg, holdsJobs, t, id);
        assert step == (t, []);
        var none: seq<Event> := [];
        assert SendAll(cfg, holdsJobs, t, order) == (step.0, none + step.1);
        assert none + step.1 == none;
      }
    }
  }

  /**
   * A pass over every pending job followed by a second pass with no new
   * notifications in between: the second publishes nothing and changes
   * nothing.
   */
  lemma SecondPassIsQuiet(cfg: Config, holdsJobs: bool, t: JobTables, order: seq<int>, order2: seq<int>)
    requires WellFormed(t)
    requires forall id :: id in t.pending ==> id in order
    ensures var first := SendAll(cfg, holdsJobs, t, order).0;
            SendAll(cfg, holdsJobs, first, order2) == (first, [])
  {
    var first := SendAll(cfg, holdsJobs, t, order).0;
    SendAllSettles(cfg, holdsJobs, t, order);
    assert Settled(cfg, first, first.pending.Keys) by {
      forall id | id in first.pending
        ensures id in order
      {
        assert id in t.pending;
      }
    }
    SettledPassIsQuiet(cfg, holdsJobs, first, order2);
  }

  // ---------------------------------------------------------------------
  // The tracker

  class WmiPrinterStatusThread {
    // The tracker's constants (see Config), kept one per field.
    const printerName: string
    const invalidNames: set<string>
    const attributeWorkOffline: bv32
    const notOkMask: bv32
    const printed: bv32
    const deleted: bv32
    const printing: bv32
    var holdsJobs: bool
    var statusField: bv32
    var attributeField: bv32
    var lastPrinterStatus: bv32
    var wasOk: bool
    var docNames: map<int, string>
    var pendingJobStatuses: map<int, seq<bv32>>
    var lastJobStatusCodes: map<int, bv32>
    /** The events handed to StatusMonitor.statusChanged, oldest first. */
    var published: seq<Event>

    ghost predicate Valid()
      reads this
    {
      WellFormed(Jobs())
    }

    function Cfg(): Config {
      Config(printerName, invalidNames, attributeWorkOffline, notOkMask, printed, deleted, printing)
    }

    function Jobs(): JobTables
      reads this
    {
      JobTables(docNames, pendingJobStatuses, lastJobStatusCodes)
    }

    /** The constructor, from the printer's PRINTER_INFO_2 status and attributes. */
    constructor (cfg: Config, status: bv32, attributes: bv32)
      ensures Valid()
      ensures Cfg() == cfg
      ensures holdsJobs == HoldsJobs(attributes)
      ensures statusField == status && attributeField == attributes
      ensures lastPrinterStatus == CombineStatus(status, attributes, cfg.attributeWorkOffline)
      ensures !wasOk
      ensures docNames == map[] && pendingJobStatuses == map[] && lastJobStatusCodes == map[]
      ensures published == []
    {
      printerName := cfg.printerName;
      invalidNames := cfg.invalidNames;
      attributeWorkOffline := cfg.attributeWorkOffline;
      notOkMask := cfg.notOkMask;
      printed := cfg.printed;
      deleted := cfg.deleted;
      printing := cfg.printing;
      holdsJobs := HasFlag(attributes, KeepPrintedJobs);
      HoldsJobsSigned(attributes);
      statusField := status;
      attributeField := attributes;
      lastPrinterStatus := CombineStatus(status, attributes, cfg.attributeWorkOffline);
      wasOk := false;
      docNames := map[];
      pendingJobStatuses := map[];
      lastJobStatusCodes := map[];
      published := [];
    }

    /** decodeJobStatus: takes in one notification entry. */
    method DecodeJobStatus(d: Notification)
      requires Valid()
      modifies this
      ensures Valid()
      ensures statusField == if d.PrinterStatusField? then d.value else old(statusField)
      ensures attributeField == if d.PrinterAttributesField? then d.value else old(attributeField)
      ensures holdsJobs == if d.PrinterAttributesField? then HoldsJobs(d.value) else old(holdsJobs)
      ensures IsPrinterType(d) ==>
                lastPrinterStatus == CombineStatus(statusField, attributeField, attributeWorkOffline) &&
                published == old(published) + PrinterEvents(lastPrinterStatus, old(lastPrinterStatus), old(wasOk), notOkMask) &&
                wasOk == if lastPrinterStatus != old(lastPrinterStatus) then IsOk(lastPrinterStatus, notOkMask) else old(wasOk)
      ensures !IsPrinterType(d) ==>
                lastPrinterStatus == old(lastPrinterStatus) && wasOk == old(wasOk) && published == old(published)
      ensures docNames == if d.JobDocumentField? then old(docNames)[d.id := d.document] else old(docNames)
      ensures pendingJobStatuses ==
                if d.JobStatusField? then AppendCode(old(pendingJobStatuses), d.id, d.value) else old(pendingJobStatuses)
      ensures lastJobStatusCodes == old(lastJobStatusCodes)
    {
      if IsPrinterType(d) {
        ChangePrinter(d);
      } else if d.JobDocumentField? {
        docNames := docNames[d.id := d.document];
      } else if d.JobStatusField? {
        AppendKeepsWellFormed(Jobs(), d.id, d.value);
        pendingJobStatuses := AppendCode(pendingJobStatuses, d.id, d.value);
      }
    }

    /** The printer branch of decodeJobStatus. */
    method ChangePrinter(d: Notification)
      requires IsPrinterType(d)
      modifies this
      ensures statusField == if d.PrinterStatusField? then d.value else old(statusField)
      ensures attributeField == if d.PrinterAttributesField? then d.value else old(attributeField)
      ensures holdsJobs == if d.PrinterAttributesField? then HoldsJobs(d.value) else old(holdsJobs)
      ensures lastPrinterStatus == CombineStatus(statusField, attributeField, attributeWorkOffline)
      ensures published == old(published) + PrinterEvents(lastPrinterStatus, old(lastPrinterStatus), old(wasOk), notOkMask)
      ensures wasOk == if lastPrinterStatus != old(lastPrinterStatus) then IsOk(lastPrinterStatus, notOkMask) else old(wasOk)
      ensures Jobs() == old(Jobs())
    {
      if d.PrinterStatusField? {
        statusField := d.value;
      } else if d.PrinterAttributesField? {
        attributeField := d.value;
        holdsJobs := HoldsJobs(d.value);
      }
      PublishPrinterStatus();
    }

    /** The tail of the printer branch: publish the combined status if it changed. */
    method PublishPrinterStatus()
      modifies this
      ensures lastPrinterStatus == CombineStatus(statusField, attributeField, attributeWorkOffline)
      ensures published == old(published) + PrinterEvents(lastPrinterStatus, old(lastPrinterStatus), old(wasOk), notOkMask)
      ensures wasOk == if lastPrinterStatus != old(lastPrinterStatus) then IsOk(lastPrinterStatus, notOkMask) else old(wasOk)
      ensures statusField == old(statusField) && attributeField == old(attributeField) && holdsJobs == old(holdsJobs)
      ensures Jobs() == old(Jobs())
    {
      var newStatus := CombineStatus(statusField, attributeField, attributeWorkOffline);
      if newStatus != lastPrinterStatus {
        published := published + [PrinterStatuses(newStatus)];
        var isOk := IsOk(newStatus, notOkMask);
        if isOk && !wasOk {
          if newStatus != 0 {
            published := published + [PrinterOk];
          }
        }
        wasOk := isOk;
        lastPrinterStatus := newStatus;
      }
    }

    /**
     * sendPendingStatuses, visiting the pending jobs in `order`, the
     * iteration order of the HashMap.
     */
    method SendPendingStatuses(order: seq<int>)
      requires Valid()
      requires forall i, j :: 0 <= i < j < |order| ==> order[i] != order[j]
      requires forall id :: id in pendingJobStatuses <==> id in order
      modifies this
      ensures Valid()
      ensures Jobs() == SendAll(Cfg(), holdsJobs, old(Jobs()), order).0
      ensures published == old(published) + SendAll(Cfg(), holdsJobs, old(Jobs()), order).1
      ensures holdsJobs == old(holdsJobs) && statusField == old(statusField) && attributeField == old(attributeField)
      ensures lastPrinterStatus == old(lastPrinterStatus) && wasOk == old(wasOk)
    {
      if |pendingJobStatuses| == 0 {
        assert pendingJobStatuses == map[];
        SendAllSkipsAbsent(Cfg(), holdsJobs, Jobs(), order);
        return;
      }
      FlushInOrder(order);
    }

    /** The loop of sendPendingStatuses over the entries in `order`. */
    method FlushInOrder(order: seq<int>)
      requires Valid()
      modifies this
      ensures Valid()
      ensures Jobs() == SendAll(Cfg(), holdsJobs, old(Jobs()), order).0
      ensures published == old(published) + SendAll(Cfg(), holdsJobs, old(Jobs()), order).1
      ensures holdsJobs == old(holdsJobs) && statusField == old(statusField) && attributeField == old(attributeField)
      ensures lastPrinterStatus == old(lastPrinterStatus) && wasOk == old(wasOk)
    {
      var i := 0;
      while i < |order|
        invariant i <= |order|
        invariant Valid()
        invariant Jobs() == SendAll(Cfg(), holdsJobs, old(Jobs()), order[..i]).0
        invariant published == old(published) + SendAll(Cfg(), holdsJobs, old(Jobs()), order[..i]).1
        invariant holdsJobs == old(holdsJobs) && statusField == old(statusField) && attributeField == old(attributeField)
        invariant lastPrinterStatus == old(lastPrinterStatus) && wasOk == old(wasOk)
      {
        var jobId := order[i];
        SendAllStep(Cfg(), holdsJobs, old(Jobs()), order, i);
        if jobId in pendingJobStatuses {
          FlushPending(jobId);
        }
        i := i + 1;
      }
      assert order[..|order|] == order;
    }

    /** The body of the sendPendingStatuses loop for one entry. */
    method FlushPending(jobId: int)
      requires Valid() && jobId in pendingJobStatuses
      modifies this
      ensures Jobs() == FlushJob(Cfg(), holdsJobs, old(Jobs()), jobId).0
      ensures published == old(published) + FlushJob(Cfg(), holdsJobs, old(Jobs()), jobId).1
      ensures holdsJobs == old(holdsJobs) && statusField == old(statusField) && attributeField == old(attributeField)
      ensures lastPrinterStatus == old(lastPrinterStatus) && wasOk == old(wasOk)
    {
      var codes := pendingJobStatuses[jobId];
      var docName := if jobId in docNames then Some(docNames[jobId]) else None;
      if docName.Some? && docName.value in invalidNames {
        return;
      }
      if holdsJobs && docName.None? && |codes| == 1 && codes[0] == printed {
        assert codes == [printed];
        DropDoublePrinted(jobId);
      } else {
        ReportAndSettle(jobId);
      }
    }

    /** The double-"printed" workaround: the job is dropped without a report. */
    method DropDoublePrinted(jobId: int)
      requires Valid() && jobId in pendingJobStatuses
      requires !Waiting(Cfg(), Jobs(), jobId) && DoublePrinted(Cfg(), holdsJobs, Jobs(), jobId)
      modifies this
      ensures Jobs() == FlushJob(Cfg(), holdsJobs, old(Jobs()), jobId).0
      ensures published == old(published) + FlushJob(Cfg(), holdsJobs, old(Jobs()), jobId).1
      ensures holdsJobs == old(holdsJobs) && statusField == old(statusField) && attributeField == old(attributeField)
      ensures lastPrinterStatus == old(lastPrinterStatus) && wasOk == old(wasOk)
    {
      FlushDoublePrinted(Cfg(), holdsJobs, Jobs(), jobId);
      pendingJobStatuses := pendingJobStatuses - {jobId};
      lastJobStatusCodes := lastJobStatusCodes - {jobId};
    }

    /**
     * The reporting case of the loop body: every pending code of the job is
     * reported, then the job is forgotten if its last code is final, or keeps
     * that code as its stored one otherwise.
     */
    method ReportAndSettle(jobId: int)
      requires jobId in pendingJobStatuses && pendingJobStatuses[jobId] != []
      modifies this
      ensures Jobs() == Settle(Cfg(), holdsJobs, old(Jobs()), jobId)
      ensures published == old(published) + JobReports(old(Jobs()), jobId)
      ensures holdsJobs == old(holdsJobs) && statusField == old(statusField) && attributeField == old(attributeField)
      ensures lastPrinterStatus == old(lastPrinterStatus) && wasOk == old(wasOk)
    {
      var codes := pendingJobStatuses[jobId];
      ReportPending(jobId);
      ForgetIfFinal(jobId, codes[|codes| - 1]);
      assert old(lastJobStatusCodes)[jobId := codes[|codes| - 1]] - {jobId} == old(lastJobStatusCodes) - {jobId};
    }

    /**
     * The inner loop of the loop body and the removal of the entry: every
     * pending code of the job is reported, and the last one is stored.
     */
    method ReportPending(jobId: int)
      requires jobId in pendingJobStatuses && pendingJobStatuses[jobId] != []
      modifies this
      ensures published == old(published) + JobReports(old(Jobs()), jobId)
      ensures var codes := old(pendingJobStatuses)[jobId];
              lastJobStatusCodes == old(lastJobStatusCodes)[jobId := codes[|codes| - 1]]
      ensures pendingJobStatuses == old(pendingJobStatuses) - {jobId}
      ensures docNames == old(docNames) && holdsJobs == old(holdsJobs)
      ensures statusField == old(statusField) && attributeField == old(attributeField)
      ensures lastPrinterStatus == old(lastPrinterStatus) && wasOk == old(wasOk)
    {
      var codes := pendingJobStatuses[jobId];
      var docName := if jobId in docNames then Some(docNames[jobId]) else None;
      var start := if jobId in lastJobStatusCodes then lastJobStatusCodes[jobId] else 0;
      var events := ReportNewBits(jobId, codes, start, docName);
      published := published + events;
      lastJobStatusCodes := lastJobStatusCodes[jobId := codes[|codes| - 1]];
      pendingJobStatuses := pendingJobStatuses - {jobId};
    }

    /** The end of the loop body: a job whose last code is final is forgotten. */
    method ForgetIfFinal(jobId: int, code: bv32)
      modifies this
      ensures if IsFinalCode(Cfg(), holdsJobs, code)
              then docNames == old(docNames) - {jobId} && lastJobStatusCodes == old(lastJobStatusCodes) - {jobId}
              else docNames == old(docNames) && lastJobStatusCodes == old(lastJobStatusCodes)
      ensures pendingJobStatuses == old(pendingJobStatuses) && published == old(published)
      ensures holdsJobs == old(holdsJobs) && statusField == old(statusField) && attributeField == old(attributeField)
      ensures lastPrinterStatus == old(lastPrinterStatus) && wasOk == old(wasOk)
    {
      var isFinalCode := HasFlag(code, deleted);
      if holdsJobs {
        isFinalCode := isFinalCode || HasFlag(code, printed);
        isFinalCode := isFinalCode && LacksFlag(code, printing);
      }
      if isFinalCode {
        docNames := docNames - {jobId};
        lastJobStatusCodes := lastJobStatusCodes - {jobId};
      }
    }
  }
}
