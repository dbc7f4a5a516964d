/**
 * CupsPrinterList (src/qz/printer/info/CupsPrinterList.java): putAll pairs
 * the printers that `lpstat -l -p` lists with the print services of
 * javax.print, and fillAttributes reads the resolution and the driver name
 * out of a printer's PPD file.
 *
 * The text lpstat prints, the services still missing from the list and the
 * lines of the PPD file are parameters.
 */
module CupsPrinters {
  import opened JavaStrings

  const DefaultCupsDriver := "TEXTONLY.ppd"
  const DescriptionMarker := "Description:"
  const InterfaceMarker := "Interface:"
  const ResolutionMarker := "*DefaultResolution:"
  const DriverMarker := "*PCFileName:"

  /** A PrintService, as the pairing sees it: by getName(). */
  datatype Service = Service(name: string)

  /** The NativePrinter fields putAll sets; None where a field is not set. */
  datatype NativePrinter = NativePrinter(
    printerId: string,
    description: Option<string>,
    driverFile: Option<string>,
    service: Option<Service>)

  // ---------------------------------------------------------------------
  // One block of lpstat output

  /** line.split("\\s+")[0] for a trimmed line: the text before its first whitespace. */
  function FirstToken(line: string): (r: string)
    requires line == [] || !IsRegexSpace(line[0])
    ensures StartsWith(line, r)
    ensures forall j :: 0 <= j < |r| ==> !IsRegexSpace(r[j])
    ensures |r| < |line| ==> IsRegexSpace(line[|r|])
  {
    TokenSplit(line);
    Split(Spaces, line)[0]
  }

  lemma TokenSplit(line: string)
    requires line == [] || !IsRegexSpace(line[0])
    ensures Split(Spaces, line) != []
    ensures var f := FindSep(Spaces, line, 0);
            Split(Spaces, line)[0] == line[..f.0] &&
            (forall j :: 0 <= j < f.0 ==> !IsRegexSpace(line[j])) &&
            (f.0 < |line| ==> IsRegexSpace(line[f.0]))
  {
    if line != [] {
      SplitNonEmpty(Spaces, line, 0);
    } else {
      assert Pieces(Spaces, line) == [line];
    }
    SplitHead(Spaces, line);
    var f := FindSep(Spaces, line, 0);
    forall j | 0 <= j < f.0
      ensures !IsRegexSpace(line[j])
    {
      assert MatchAt(Spaces, line, j) == 0;
    }
  }

  /** Each line trimmed. */
  function TrimAll(lines: seq<string>): (r: seq<string>)
    ensures |r| == |lines|
  {
    if lines == [] then [] else TrimAll(lines[..|lines| - 1]) + [Trim(lines[|lines| - 1])]
  }

  /** The first of the (trimmed) lines that starts with `marker`; |lines| when none does. */
  function FirstWith(lines: seq<string>, marker: string): (n: nat)
    ensures n <= |lines|
    ensures forall j :: 0 <= j < n ==> !StartsWith(lines[j], marker)
    ensures n < |lines| ==> StartsWith(lines[n], marker)
  {
    if lines == [] then 0
    else if StartsWith(lines[0], marker) then 0
    else 1 + FirstWith(lines[1..], marker)
  }

  lemma FirstWithUnique(lines: seq<string>, marker: string, n: nat)
    requires n <= |lines|
    requires forall j :: 0 <= j < n ==> !StartsWith(lines[j], marker)
    requires n < |lines| ==> StartsWith(lines[n], marker)
    ensures FirstWith(lines, marker) == n
  {
  }

  /** The text after `marker` on the first line carrying it. */
  function FieldOf(lines: seq<string>, marker: string): Option<string> {
    var n := FirstWith(lines, marker);
    if n < |lines| then Some(lines[n][|marker|..]) else None
  }

  /** A field's text, trimmed. */
  function Trimmed(field: Option<string>): Option<string> {
    if field.Some? then Some(Trim(field.value)) else None
  }

  /** A field found in the first n lines is the field of all of them. */
  lemma FieldOfPrefix(lines: seq<string>, n: nat, marker: string)
    requires n <= |lines| && FieldOf(lines[..n], marker).Some?
    ensures FieldOf(lines, marker) == FieldOf(lines[..n], marker)
  {
    var k := FirstWith(lines[..n], marker);
    assert forall j :: 0 <= j <= k ==> lines[..n][j] == lines[j];
    FirstWithUnique(lines, marker, k);
  }

  /** A field not found in the first n lines is taken from line n when it carries the marker. */
  lemma FieldOfNext(lines: seq<string>, n: nat, marker: string)
    requires n < |lines|
    ensures var d := FieldOf(lines[..n], marker);
            FieldOf(lines[..n + 1], marker) ==
              if d.None? && StartsWith(lines[n], marker) then Some(lines[n][|marker|..]) else d
  {
    var a := lines[..n + 1];
    assert a[..n] == lines[..n];
    if FieldOf(lines[..n], marker).Some? {
      FieldOfPrefix(a, n, marker);
    } else {
      assert forall j :: 0 <= j < n ==> a[j] == lines[..n][j];
      FirstWithUnique(a, marker, if StartsWith(lines[n], marker) then n else n + 1);
    }
  }

  /**
   * A field read line by line, as the loop over a block does: each line is
   * trimmed, and the first one starting with `marker` gives the trimmed
   * text after it.
   */
  function FirstField(lines: seq<string>, marker: string): Option<string>
    decreases |lines|
  {
    if lines == [] then None
    else
      var f := FirstField(lines[..|lines| - 1], marker);
      var line := Trim(lines[|lines| - 1]);
      if f.None? && StartsWith(line, marker) then Some(Trim(line[|marker|..])) else f
  }

  /** Once a field is found, the lines after it do not change it. */
  lemma {:induction false} FirstFieldSettled(lines: seq<string>, n: nat, marker: string)
    requires n <= |lines| && FirstField(lines[..n], marker).Some?
    ensures FirstField(lines, marker) == FirstField(lines[..n], marker)
    decreases |lines|
  {
    if n < |lines| {
      assert lines[..|lines| - 1][..n] == lines[..n];
      FirstFieldSettled(lines[..|lines| - 1], n, marker);
    } else {
      assert lines[..n] == lines;
    }
  }

  /** The field read line by line is the text after the marker on the first trimmed line that starts with it. */
  lemma {:induction false} FirstFieldIsFirstLine(lines: seq<string>, marker: string)
    ensures FirstField(lines, marker) == Trimmed(FieldOf(TrimAll(lines), marker))
    decreases |lines|
  {
    if lines != [] {
      var n := |lines| - 1;
      var init := TrimAll(lines[..n]);
      var all := TrimAll(lines);
      FirstFieldIsFirstLine(lines[..n], marker);
      assert all == init + [Trim(lines[n])];
      assert all[..n] == init && all[n] == Trim(lines[n]);
      FieldOfNext(all, n, marker);
      assert all[..n + 1] == all;
    }
  }

  /** The lines of a block that is not blank: there is at least one. */
  lemma LinesOfBlock(device: string)
    requires !AllTrimmed(device)
    ensures Split(LineBreak, device) != []
  {
    var i :| 0 <= i < |device| && !IsTrimmed(device[i]);
    SplitNonEmpty(LineBreak, device, i);
  }

  /**
   * The printer a block describes: the id is the first word of its first
   * line, the description and driver file the text after the first
   * "Description:" and "Interface:" lines below it.
   */
  function BlockPrinter(device: string): (p: NativePrinter)
    requires !AllTrimmed(device)
    ensures p.service.None?
  {
    LinesOfBlock(device);
    var lines := Split(LineBreak, device);
    NativePrinter(FirstToken(Trim(lines[0])), FirstField(lines[1..], DescriptionMarker),
                  FirstField(lines[1..], InterfaceMarker), None)
  }

  /** The text after the first occurrence of `marker`; on a line that starts with it, all after the prefix. */
  function AfterMarker(line: string, marker: string): (r: string)
    requires StartsWith(line, marker)
    ensures r == line[|marker|..]
  {
    assert OccursAt(line, marker, 0);
    line[IndexOf(line, marker) + |marker|..]
  }

  /** One block: the printer id from its first line, the fields from the lines below it. */
  method ParseDevice(device: string) returns (printer: NativePrinter)
    requires !AllTrimmed(device)
    ensures printer == BlockPrinter(device)
  {
    LinesOfBlock(device);
    var lines := Split(LineBreak, device);
    var description, driverFile := ReadFields(lines[1..]);
    printer := NativePrinter(FirstToken(Trim(lines[0])), description, driverFile, None);
  }

  /**
   * The loop over the lines below the first: each line is trimmed, the
   * first "Description:" and "Interface:" lines set the fields, and the loop
   * stops once both are set.
   */
  method ReadFields(lines: seq<string>) returns (description: Option<string>, driverFile: Option<string>)
    ensures description == FirstField(lines, DescriptionMarker)
    ensures driverFile == FirstField(lines, InterfaceMarker)
  {
    description, driverFile := None, None;
    var i := 0;
    while i < |lines|
      invariant i <= |lines|
      invariant description == FirstField(lines[..i], DescriptionMarker)
      invariant driverFile == FirstField(lines[..i], InterfaceMarker)
    {
      assert lines[..i + 1][..i] == lines[..i];
      var line := Trim(lines[i]);
      if description.None? && StartsWith(line, DescriptionMarker) {
        description := Some(Trim(AfterMarker(line, DescriptionMarker)));
      }
      if driverFile.None? && StartsWith(line, InterfaceMarker) {
        driverFile := Some(Trim(AfterMarker(line, InterfaceMarker)));
      }
      if description.Some? && driverFile.Some? {
        FirstFieldSettled(lines, i + 1, DescriptionMarker);
        FirstFieldSettled(lines, i + 1, InterfaceMarker);
        return;
      }
      i := i + 1;
    }
    assert lines[..i] == lines;
  }

  // ---------------------------------------------------------------------
  // Pairing blocks with services (putAll)

  /** What a service's name is compared with: the description on macOS, the printer id elsewhere. */
  function Key(p: NativePrinter, isMac: bool): Option<string> {
    if isMac then p.description else Some(p.printerId)
  }

  predicate Pairs(p: NativePrinter, s: Service, isMac: bool) {
    Key(p, isMac) == Some(s.name)
  }

  /** The first service the printer pairs with; |services| when none does. */
  function FirstService(p: NativePrinter, services: seq<Service>, isMac: bool): (k: nat)
    ensures k <= |services|
    ensures forall j :: 0 <= j < k ==> !Pairs(p, services[j], isMac)
    ensures k < |services| ==> Pairs(p, services[k], isMac)
  {
    if services == [] then 0
    else if Pairs(p, services[0], isMac) then 0
    else 1 + FirstService(p, services[1..], isMac)
  }

  lemma FirstServiceUnique(p: NativePrinter, services: seq<Service>, isMac: bool, k: nat)
    requires k <= |services|
    requires forall j :: 0 <= j < k ==> !Pairs(p, services[j], isMac)
    requires k < |services| ==> Pairs(p, services[k], isMac)
    ensures FirstService(p, services, isMac) == k
  {
  }

  /** The loop over shrinkingList that looks for the printer's service and breaks at the first. */
  method PairService(p: NativePrinter, shrinkingList: seq<Service>, isMac: bool) returns (k: nat)
    ensures k <= |shrinkingList|
    ensures forall j :: 0 <= j < k ==> !Pairs(p, shrinkingList[j], isMac)
    ensures k < |shrinkingList| ==> Pairs(p, shrinkingList[k], isMac)
  {
    k := 0;
    while k < |shrinkingList|
      invariant k <= |shrinkingList|
      invariant forall j :: 0 <= j < k ==> !Pairs(p, shrinkingList[j], isMac)
    {
      var service := shrinkingList[k];
      if isMac {
        if p.description == Some(service.name) { return; }
      } else {
        if p.printerId == service.name { return; }
      }
      k := k + 1;
    }
  }

  /**
   * The state of putAll between blocks: the printer map, the services not
   * yet paired (shrinkingList) and, for the proofs, those paired so far.
   */
  datatype Scan = Scan(printers: map<string, NativePrinter>, remaining: seq<Service>, paired: seq<Service>)

  /** A parsed printer: stored under its id with the first service it pairs with, or dropped. */
  function AddPrinter(s: Scan, p: NativePrinter, isMac: bool): Scan {
    var k := FirstService(p, s.remaining, isMac);
    if k < |s.remaining| then
      var service := s.remaining[k];
      Scan(s.printers[p.printerId := p.(service := Some(service))],
           s.remaining[..k] + s.remaining[k + 1..], s.paired + [service])
    else s
  }

  /** One block: blank blocks are skipped. */
  function AddDevice(s: Scan, device: string, isMac: bool): Scan {
    if AllTrimmed(device) then s else AddPrinter(s, BlockPrinter(device), isMac)
  }

  /** The blocks in order. */
  function AddDevices(s: Scan, devices: seq<string>, isMac: bool): Scan {
    if devices == [] then s
    else AddDevice(AddDevices(s, devices[..|devices| - 1], isMac), devices[|devices| - 1], isMac)
  }

  lemma AddDevicesStep(s: Scan, devices: seq<string>, i: nat, isMac: bool)
    requires i < |devices|
    ensures AddDevices(s, devices[..i + 1], isMac) == AddDevice(AddDevices(s, devices[..i], isMac), devices[i], isMac)
  {
    assert devices[..i + 1][..i] == devices[..i];
  }

  /** The blocks of lpstat's output: split at each line break followed by "printer ". */
  function Devices(lpstatOutput: string): seq<string> {
    Split(PrinterBlock, "\n" + lpstatOutput)
  }

  /** Every stored printer sits under its own id and holds a service that pairs with it. */
  predicate WellPaired(printers: map<string, NativePrinter>, isMac: bool) {
    forall id :: id in printers ==>
      printers[id].printerId == id && printers[id].service.Some? &&
      Pairs(printers[id], printers[id].service.value, isMac)
  }

  /** Storing only paired printers keeps the map well paired. */
  lemma {:induction false} AddDevicesKeepsPaired(s: Scan, devices: seq<string>, isMac: bool)
    requires WellPaired(s.printers, isMac)
    ensures WellPaired(AddDevices(s, devices, isMac).printers, isMac)
  {
    if devices != [] {
      var prior := AddDevices(s, devices[..|devices| - 1], isMac);
      AddDevicesKeepsPaired(s, devices[..|devices| - 1], isMac);
      var device := devices[|devices| - 1];
      if !AllTrimmed(device) {
        AddPrinterKeepsPaired(prior, BlockPrinter(device), isMac);
      }
    }
  }

  lemma AddPrinterKeepsPaired(s: Scan, p: NativePrinter, isMac: bool)
    requires WellPaired(s.printers, isMac)
    ensures WellPaired(AddPrinter(s, p, isMac).printers, isMac)
  {
    var k := FirstService(p, s.remaining, isMac);
    if k < |s.remaining| {
      assert Pairs(p.(service := Some(s.remaining[k])), s.remaining[k], isMac);
    }
  }

  lemma AddPrinterConserves(s: Scan, p: NativePrinter, isMac: bool)
    ensures var r := AddPrinter(s, p, isMac);
            multiset(r.remaining) + multiset(r.paired) == multiset(s.remaining) + multiset(s.paired)
  {
    var k := FirstService(p, s.remaining, isMac);
    if k < |s.remaining| {
      var rem := s.remaining;
      assert rem == rem[..k] + [rem[k]] + rem[k + 1..];
      assert multiset(rem) == multiset(rem[..k] + rem[k + 1..]) + multiset{rem[k]};
    }
  }

  /** A paired service leaves the list: every service is either still waiting or paired, once. */
  lemma {:induction false} AddDevicesConserves(s: Scan, devices: seq<string>, isMac: bool)
    ensures var r := AddDevices(s, devices, isMac);
            multiset(r.remaining) + multiset(r.paired) == multiset(s.remaining) + multiset(s.paired)
  {
    if devices != [] {
      var prior := AddDevices(s, devices[..|devices| - 1], isMac);
      AddDevicesConserves(s, devices[..|devices| - 1], isMac);
      var device := devices[|devices| - 1];
      if !AllTrimmed(device) {
        AddPrinterConserves(prior, BlockPrinter(device), isMac);
      }
    }
  }

  /** A printer that pairs with none of the waiting services changes nothing. */
  lemma UnpairedPrinterDropped(s: Scan, p: NativePrinter, isMac: bool)
    requires forall j :: 0 <= j < |s.remaining| ==> !Pairs(p, s.remaining[j], isMac)
    ensures AddPrinter(s, p, isMac) == s
  {
  }

  /** A printer that pairs is stored under its id with the first service it pairs with, which leaves the list. */
  lemma PairedPrinterStored(s: Scan, p: NativePrinter, isMac: bool, k: nat)
    requires k < |s.remaining| && Pairs(p, s.remaining[k], isMac)
    requires forall j :: 0 <= j < k ==> !Pairs(p, s.remaining[j], isMac)
    ensures var r := AddPrinter(s, p, isMac);
            r.printers == s.printers[p.printerId := p.(service := Some(s.remaining[k]))] &&
            r.remaining == s.remaining[..k] + s.remaining[k + 1..] &&
            r.paired == s.paired + [s.remaining[k]]
  {
    FirstServiceUnique(p, s.remaining, isMac, k);
  }

  class CupsPrinterList {
    /** The printers by id (the NativePrinterList map). */
    var printers: map<string, NativePrinter>

    constructor ()
      ensures printers == map[]
    {
      printers := map[];
    }

    /**
     * putAll, given the services findMissing reports and the output of
     * `lpstat -l -p`: nothing happens without missing services.
     */
    method PutAll(missing: seq<Service>, lpstatOutput: string, isMac: bool)
      modifies this
      ensures missing == [] ==> printers == old(printers)
      ensures missing != [] ==>
                printers == AddDevices(Scan(old(printers), missing, []), Devices(lpstatOutput), isMac).printers
    {
      if |missing| == 0 { return; }
      var shrinkingList := missing;
      ghost var paired: seq<Service> := [];
      var output := "\n" + lpstatOutput;
      var devices := Split(PrinterBlock, output);
      ghost var start := Scan(printers, missing, []);
      assert devices[..0] == [];
      assert Scan(printers, shrinkingList, paired) == AddDevices(start, devices[..0], isMac);
      var i := 0;
      while i < |devices|
        invariant i <= |devices| && devices == Devices(lpstatOutput)
        invariant Scan(printers, shrinkingList, paired) == AddDevices(start, devices[..i], isMac)
      {
        var device := devices[i];
        AddDevicesStep(start, devices, i, isMac);
        ghost var prior := Scan(printers, shrinkingList, paired);
        if Trim(device) != [] {
          var printer := ParseDevice(device);
          var k := PairService(printer, shrinkingList, isMac);
          if k < |shrinkingList| {
            PairedPrinterStored(prior, printer, isMac, k);
            var service := shrinkingList[k];
            shrinkingList := shrinkingList[..k] + shrinkingList[k + 1..];
            paired := paired + [service];
            printers := printers[printer.printerId := printer.(service := Some(service))];
          } else {
            UnpairedPrinterDropped(prior, printer, isMac);
          }
          assert Scan(printers, shrinkingList, paired) == AddPrinter(prior, printer, isMac);
        }
        assert Scan(printers, shrinkingList, paired) == AddDevice(prior, device, isMac);
        i := i + 1;
      }
      assert devices[..i] == devices;
    }
  }

  // ---------------------------------------------------------------------
  // PPD lines (fillAttributes)

  /** PrinterResolution.DPI and PrinterResolution.DPCM. */
  datatype ResolutionUnit = Dpi | Dpcm

  /** A PrinterResolution with equal cross-feed and feed density. */
  datatype Resolution = Resolution(density: nat, unit: ResolutionUnit)

  /** The printer's resolution and driver; None where not set. */
  datatype PpdFields = PpdFields(resolution: Option<Resolution>, driver: Option<string>)

  /**
   * The exceptions fillAttributes lets through: an index past the end of an
   * empty split, and the PrinterResolution constructor refusing a density
   * below 1.
   */
  datatype Failure = IndexOutOfBounds | IllegalArgument

  datatype Filled = Filled(fields: PpdFields) | Failed(failure: Failure)

  /** What one PPD line does to the fields. */
  datatype LineEffect = SetResolution(res: Resolution) | SetDriver(driver: string) | Unchanged | Throws(failure: Failure)

  lemma MarkerCharAt(line: string, marker: string)
    requires Contains(line, marker) && |marker| > 0
    ensures IndexOf(line, marker) < |line| && line[IndexOf(line, marker)] == marker[0]
  {
    var i := IndexOf(line, marker);
    assert line[i..i + |marker|] == marker;
    assert line[i] == line[i..i + |marker|][0];
  }

  /** The text of a resolution line before its first 'x': line.split("x")[0]. */
  function BeforeX(line: string): (r: string)
    requires Contains(line, ResolutionMarker)
    ensures r == line[..FindSep(Literal("x"), line, 0).0]
  {
    MarkerCharAt(line, ResolutionMarker);
    SplitNonEmpty(Literal("x"), line, IndexOf(line, ResolutionMarker));
    SplitHead(Literal("x"), line);
    Split(Literal("x"), line)[0]
  }

  /** The effect of one line of the PPD file, resolution lines first. */
  function EffectOf(line: string): LineEffect {
    if Contains(line, ResolutionMarker) then
      match ParseInt(OnlyDigits(BeforeX(line)))
      case None => Unchanged
      case Some(density) =>
        if density < 1 then Throws(IllegalArgument)
        else SetResolution(Resolution(density, if Contains(Lower(line), "dpi") then Dpi else Dpcm))
    else if Contains(line, DriverMarker) then
      var split := Split(Literal(DriverMarker), line);
      if split == [] then Throws(IndexOutOfBounds)
      else SetDriver(Trim(Replace(split[|split| - 1], "\"", "")))
    else Unchanged
  }

  /**
   * A resolution line sets the density read from the digits before the
   * first 'x', in DPI exactly when the line mentions "dpi" in any case.
   */
  lemma ResolutionLine(line: string)
    requires EffectOf(line).SetResolution?
    ensures Contains(line, ResolutionMarker)
    ensures var digits := OnlyDigits(line[..FindSep(Literal("x"), line, 0).0]);
            digits != [] && EffectOf(line).res.density == DigitsValue(digits) <= MaxInt
    ensures EffectOf(line).res.unit == Dpi <==> Contains(Lower(line), "dpi")
  {
  }

  /** A line that mentions neither marker changes nothing. */
  lemma OtherLineUnchanged(line: string)
    requires !Contains(line, ResolutionMarker) && !Contains(line, DriverMarker)
    ensures EffectOf(line) == Unchanged
  {
  }

  function Apply(fields: PpdFields, e: LineEffect): Filled {
    match e
    case SetResolution(r) => Filled(fields.(resolution := Some(r)))
    case SetDriver(d) => Filled(fields.(driver := Some(d)))
    case Unchanged => Filled(fields)
    case Throws(f) => Failed(f)
  }

  /** The lines in order; the first exception ends the reading. */
  function ScanLines(fields: PpdFields, lines: seq<string>): Filled {
    if lines == [] then Filled(fields)
    else
      match ScanLines(fields, lines[..|lines| - 1])
      case Failed(f) => Failed(f)
      case Filled(g) => Apply(g, EffectOf(lines[|lines| - 1]))
  }

  /**
   * fillAttributes: the lines of the driver file (None when the printer has
   * none), then the default driver when none was found.
   */
  function Fill(fields: PpdFields, ppd: Option<seq<string>>): (r: Filled)
    ensures r.Filled? ==> r.fields.driver.Some?
  {
    var scanned := if ppd.Some? then ScanLines(fields, ppd.value) else Filled(fields);
    match scanned
    case Failed(f) => Failed(f)
    case Filled(g) => Filled(if g.driver.None? then g.(driver := Some(DefaultCupsDriver)) else g)
  }

  /** Once a line has thrown, the lines after it are not read. */
  lemma {:induction false} FailurePersists(fields: PpdFields, lines: seq<string>, n: nat)
    requires n <= |lines| && ScanLines(fields, lines[..n]).Failed?
    ensures ScanLines(fields, lines) == ScanLines(fields, lines[..n])
    decreases |lines|
  {
    if n < |lines| {
      assert lines[..|lines| - 1][..n] == lines[..n];
      FailurePersists(fields, lines[..|lines| - 1], n);
    } else {
      assert lines[..n] == lines;
    }
  }

  /** Reading one more line applies its effect to the fields read so far. */
  lemma ScanStep(fields: PpdFields, lines: seq<string>, i: nat, g: PpdFields)
    requires i < |lines| && ScanLines(fields, lines[..i]) == Filled(g)
    ensures ScanLines(fields, lines[..i + 1]) == Apply(g, EffectOf(lines[i]))
  {
    assert lines[..i + 1][..i] == lines[..i];
  }

  /** The last resolution line that parses decides the resolution. */
  lemma {:induction false} LastResolutionWins(fields: PpdFields, lines: seq<string>, i: nat)
    requires i < |lines| && EffectOf(lines[i]).SetResolution?
    requires forall j :: i < j < |lines| ==> !EffectOf(lines[j]).SetResolution?
    requires ScanLines(fields, lines).Filled?
    ensures ScanLines(fields, lines).fields.resolution == Some(EffectOf(lines[i]).res)
    decreases |lines|
  {
    var init := lines[..|lines| - 1];
    if ScanLines(fields, init).Failed? {
      FailurePersists(fields, lines, |lines| - 1);
    }
    if i < |lines| - 1 {
      LastResolutionWins(fields, init, i);
    }
  }

  /** The last driver line decides the driver. */
  lemma {:induction false} LastDriverWins(fields: PpdFields, lines: seq<string>, i: nat)
    requires i < |lines| && EffectOf(lines[i]).SetDriver?
    requires forall j :: i < j < |lines| ==> !EffectOf(lines[j]).SetDriver?
    requires ScanLines(fields, lines).Filled?
    ensures ScanLines(fields, lines).fields.driver == Some(EffectOf(lines[i]).driver)
    decreases |lines|
  {
    var init := lines[..|lines| - 1];
    if ScanLines(fields, init).Failed? {
      FailurePersists(fields, lines, |lines| - 1);
    }
    if i < |lines| - 1 {
      LastDriverWins(fields, init, i);
    }
  }

  /** Without a driver line, a printer without a driver gets TEXTONLY.ppd. */
  lemma {:induction false} NoDriverLineMeansDefault(fields: PpdFields, lines: seq<string>)
    requires fields.driver.None?
    requires forall j :: 0 <= j < |lines| ==> !EffectOf(lines[j]).SetDriver?
    requires Fill(fields, Some(lines)).Filled?
    ensures Fill(fields, Some(lines)).fields.driver == Some(DefaultCupsDriver)
  {
    NoDriverLineKeepsDriver(fields, lines);
  }

  lemma {:induction false} NoDriverLineKeepsDriver(fields: PpdFields, lines: seq<string>)
    requires forall j :: 0 <= j < |lines| ==> !EffectOf(lines[j]).SetDriver?
    ensures ScanLines(fields, lines).Filled? ==> ScanLines(fields, lines).fields.driver == fields.driver
    decreases |lines|
  {
    if lines != [] {
      NoDriverLineKeepsDriver(fields, lines[..|lines| - 1]);
    }
  }

  /**
   * The body of fillAttributes's loop for one line: the resolution test
   * first, then the driver test; the exceptions it lets through.
   */
  method ReadPpdLine(line: string) returns (e: LineEffect)
    ensures e == EffectOf(line)
  {
    if Contains(line, ResolutionMarker) {
      var parsed := ParseInt(OnlyDigits(BeforeX(line)));
      if parsed.None? {
        return Unchanged;
      }
      var density := parsed.value;
      var unit := if Contains(Lower(line), "dpi") then Dpi else Dpcm;
      if density < 1 {
        return Throws(IllegalArgument);
      }
      return SetResolution(Resolution(density, unit));
    } else if Contains(line, DriverMarker) {
      var split := Split(Literal(DriverMarker), line);
      if |split| == 0 {
        return Throws(IndexOutOfBounds);
      }
      return SetDriver(Trim(Replace(split[|split| - 1], "\"", "")));
    }
    return Unchanged;
  }

  /** fillAttributes: the loop over the PPD lines, then the default driver. */
  method FillAttributes(fields: PpdFields, ppd: Option<seq<string>>) returns (r: Filled)
    ensures r == Fill(fields, ppd)
  {
    var resolution := fields.resolution;
    var driver := fields.driver;
    if ppd.Some? {
      var lines := ppd.value;
      var i := 0;
      while i < |lines|
        invariant i <= |lines|
        invariant ScanLines(fields, lines[..i]) == Filled(PpdFields(resolution, driver))
      {
        ScanStep(fields, lines, i, PpdFields(resolution, driver));
        var effect := ReadPpdLine(lines[i]);
        match effect {
          case Throws(failure) =>
            FailurePersists(fields, lines, i + 1);
            return Failed(failure);
          case SetResolution(res) =>
            resolution := Some(res);
          case SetDriver(d) =>
            driver := Some(d);
          case Unchanged =>
        }
        i := i + 1;
      }
      assert lines[..i] == lines;
    }
    if driver.None? {
      driver := Some(DefaultCupsDriver);
    }
    r := Filled(PpdFields(resolution, driver));
  }
}
