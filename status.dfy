/**
 * Status (src/qz/printer/status/Status.java): the immutable record handed
 * to status subscribers for both printer and job events, its two
 * constructors, sanitizePrinterName and toString.
 */
module StatusRecord {
  import opened JavaStrings
  import opened PrinterMatcher

  /** A NativeStatus constant as toString shows it: name() and getLevel(). */
  datatype NativeStatus = NativeStatus(name: string, level: string)

  datatype EventType = Job | Printer

  /** The enum's name, as string concatenation renders it. */
  function EventTypeName(e: EventType): string {
    match e
    case Job => "JOB"
    case Printer => "PRINTER"
  }

  /** The raw code, an Object in the source: a numeric code or a text one. */
  datatype RawCode = NumericCode(n: int) | TextCode(text: string)

  function RenderRawCode(c: RawCode): string {
    match c
    case NumericCode(n) => IntToString(n)
    case TextCode(t) => t
  }

  /** jobName is None where the field is null. */
  datatype Status = Status(
    code: NativeStatus,
    printer: string,
    rawCode: RawCode,
    eventType: EventType,
    jobId: int,
    jobName: Option<string>)

  /** The printer-event constructor: no job, job id -1. */
  function PrinterEvent(code: NativeStatus, printer: string, rawCode: RawCode): (s: Status)
    ensures s.eventType == Printer && s.jobId == -1 && s.jobName.None?
    ensures s.code == code && s.printer == printer && s.rawCode == rawCode
  {
    Status(code, printer, rawCode, Printer, -1, None)
  }

  /** The job-event constructor; the job id is stored as given, without any range check. */
  function JobEvent(code: NativeStatus, printer: string, rawCode: RawCode, jobId: int, jobName: Option<string>): (s: Status)
    ensures s.eventType == Job && s.jobId == jobId && s.jobName == jobName
    ensures s.code == code && s.printer == printer && s.rawCode == rawCode
  {
    Status(code, printer, rawCode, Job, jobId, jobName)
  }

  /**
   * What sanitizePrinterName consults: the operating system test and the
   * printer list and default printer that matchPrinter searches.
   */
  datatype PrinterEnvironment = PrinterEnvironment(
    isMac: bool,
    defaultPrinter: Option<Candidate>,
    printers: seq<Candidate>)

  /**
   * The printer name to show: the raw name off macOS; on macOS the service
   * name of the printer the raw name (a CUPS description) matches, or the
   * raw name again when none does.
   */
  function SanitizePrinterName(s: Status, env: PrinterEnvironment): (r: string)
    ensures !env.isMac ==> r == s.printer
    ensures MatchSpec(s.printer, env.defaultPrinter, env.printers, env.isMac).None? ==> r == s.printer
    ensures env.isMac && MatchSpec(s.printer, env.defaultPrinter, env.printers, env.isMac).Some? ==>
              r == MatchSpec(s.printer, env.defaultPrinter, env.printers, env.isMac).value.serviceName
  {
    if !env.isMac then s.printer
    else
      match MatchSpec(s.printer, env.defaultPrinter, env.printers, env.isMac)
      case None => s.printer
      case Some(p) => p.serviceName
  }

  /** toString up to the optional job fields. */
  function Head(s: Status, env: PrinterEnvironment): string {
    s.code.name + ": Level " + s.code.level + ", From " + SanitizePrinterName(s, env) +
    ", EventType " + EventTypeName(s.eventType) + ", Code " + RenderRawCode(s.rawCode)
  }

  function JobIdPart(s: Status): string {
    if s.jobId > 0 then ", JobId: " + IntToString(s.jobId) else ""
  }

  function JobNamePart(s: Status): string {
    if s.jobName.Some? then ", Job Name: " + s.jobName.value else ""
  }

  /**
   * toString: the job id appears only when positive, the job name only when
   * not null. Read from the end of the header, the text starts with
   * ", JobId: " exactly when the id is positive.
   */
  function ToString(s: Status, env: PrinterEnvironment): (r: string)
    ensures StartsWith(r, Head(s, env))
    ensures StartsWith(r[|Head(s, env)|..], ", JobId: ") <==> s.jobId > 0
    ensures s.jobId > 0 ==> StartsWith(r[|Head(s, env)|..], ", JobId: " + IntToString(s.jobId))
    ensures s.jobName.Some? ==> EndsWith(r, ", Job Name: " + s.jobName.value)
    ensures s.jobName.None? && s.jobId <= 0 ==> r == Head(s, env)
    ensures s.jobName.None? ==>
              r == Head(s, env) + (if s.jobId > 0 then ", JobId: " + IntToString(s.jobId) else "")
  {
    var head := Head(s, env);
    var r := head + JobIdPart(s) + JobNamePart(s);
    ToStringTail(s, head, r);
    r
  }

  lemma ToStringTail(s: Status, head: string, r: string)
    requires r == head + JobIdPart(s) + JobNamePart(s)
    ensures StartsWith(r, head)
    ensures StartsWith(r[|head|..], ", JobId: ") <==> s.jobId > 0
    ensures s.jobId > 0 ==> StartsWith(r[|head|..], ", JobId: " + IntToString(s.jobId))
    ensures s.jobName.Some? ==> EndsWith(r, ", Job Name: " + s.jobName.value)
  {
    var tail := JobIdPart(s) + JobNamePart(s);
    assert r == head + tail;
    assert r[..|head|] == head;
    assert r[|head|..] == tail;
    if s.jobId > 0 {
      assert tail[..|", JobId: " + IntToString(s.jobId)|] == JobIdPart(s);
    } else if s.jobName.Some? {
      assert tail == ", Job Name: " + s.jobName.value;
      assert ", Job Name: "[5] == ' ';
      assert tail[5] == ", Job Name: "[5];
      assert ", JobId: "[5] == 'I';
    }
    if s.jobName.Some? {
      var suffix := ", Job Name: " + s.jobName.value;
      assert r == (head + JobIdPart(s)) + suffix;
      assert r[|r| - |suffix|..] == suffix;
    }
  }
}
