/**
 * PrinterStatus: the printer status record of the CUPS/WMI codec, the
 * bitmask decoder getFromWMICode, the CUPS reason decoder getFromCupsString
 * and toString (src/qz/printer/status/PrinterStatus.java).
 */
module PrinterStatusCodec {
  import opened JavaStrings
  import opened Bits32

  /** A PrinterStatusType constant: its name, severity level and numeric code. */
  datatype PrinterStatusType = PrinterStatusType(name: string, severity: string, code: int)

  /**
   * The constants and lookup tables the codec reads from PrinterStatusType,
   * whose contents are defined outside this model: OK, UNKNOWN_STATUS,
   * codeLookupTable (single-bit mask to type) and cupsLookupTable
   * (normalised reason to type).
   */
  datatype StatusTables = StatusTables(
    ok: PrinterStatusType,
    unknown: PrinterStatusType,
    codeLookup: map<bv32, PrinterStatusType>,
    cupsLookup: map<string, PrinterStatusType>)

  /** One decoded status; `statusType` is None where the Java field holds null. */
  datatype PrinterStatus = PrinterStatus(
    statusType: Option<PrinterStatusType>,
    issuingPrinterName: string,
    cupsString: string)

  /** The two-argument constructor: no CUPS string. */
  function Create(statusType: Option<PrinterStatusType>, issuingPrinterName: string): (r: PrinterStatus)
    ensures r.statusType == statusType && r.issuingPrinterName == issuingPrinterName
    ensures r.cupsString == ""
  {
    PrinterStatus(statusType, issuingPrinterName, "")
  }

  // ---------------------------------------------------------------------
  // getFromWMICode

  /** codeLookupTable.get(mask): null (None) for a mask the table does not hold. */
  function LookupCode(tables: StatusTables, mask: bv32): Option<PrinterStatusType> {
    if mask in tables.codeLookup then Some(tables.codeLookup[mask]) else None
  }

  /** The status reported for the set bit at position `p`. */
  function BitStatus(tables: StatusTables, p: nat, name: string): PrinterStatus {
    Create(LookupCode(tables, Bit(p)), name)
  }

  function StatusesAt(tables: StatusTables, ps: seq<nat>, name: string): (r: seq<PrinterStatus>)
    ensures |r| == |ps|
  {
    if ps == [] then [] else [BitStatus(tables, ps[0], name)] + StatusesAt(tables, ps[1..], name)
  }

  /** Entry `i` is the status of position `ps[i]`. */
  lemma {:induction false} StatusesAtIndex(tables: StatusTables, ps: seq<nat>, name: string, i: nat)
    requires i < |ps|
    ensures StatusesAt(tables, ps, name)[i] == BitStatus(tables, ps[i], name)
  {
    if i > 0 { StatusesAtIndex(tables, ps[1..], name, i - 1); }
  }

  /**
   * What getFromWMICode returns: a single OK status for 0, otherwise one
   * status per set bit, the highest bit first.
   */
  function WmiStatuses(tables: StatusTables, code: bv32, name: string): seq<PrinterStatus> {
    if code == 0 then [Create(Some(tables.ok), name)]
    else StatusesAt(tables, SetPositions(code), name)
  }

  /** A set bit's status is among the statuses of the code. */
  lemma WmiStatusOfSetBit(tables: StatusTables, code: bv32, name: string, p: nat)
    requires p < 32 && HasBit(code, p)
    ensures BitStatus(tables, p, name) in WmiStatuses(tables, code, name)
  {
    var ps := SetPositions(code);
    BitsOfIndex(code, p);
    PositionsExact(BitsOf(code), 32);
    assert code != 0;
    var i :| 0 <= i < |ps| && ps[i] == p;
    StatusesAtIndex(tables, ps, name, i);
  }

  /** The status of the lowest set bit comes last. */
  lemma WmiStatusesEndWithLowest(tables: StatusTables, code: bv32, name: string)
    requires code != 0
    ensures WmiStatuses(tables, code, name) != []
    ensures WmiStatuses(tables, code, name)[|WmiStatuses(tables, code, name)| - 1]
              == BitStatus(tables, LowestSetBit(code), name)
  {
    LastPositionIsLowest(code);
    var ps := SetPositions(code);
    StatusesAtIndex(tables, ps, name, |ps| - 1);
  }

  /**
   * Entry `i` of a nonzero code's statuses is the status of the set bit at
   * SetPositions(code)[i], and those positions strictly decrease: the
   * highest set bit comes first.
   */
  lemma WmiStatusesHighestFirst(tables: StatusTables, code: bv32, name: string)
    requires code != 0
    ensures |WmiStatuses(tables, code, name)| == |SetPositions(code)|
    ensures forall i :: 0 <= i < |SetPositions(code)| ==>
              SetPositions(code)[i] < 32 && HasBit(code, SetPositions(code)[i]) &&
              WmiStatuses(tables, code, name)[i] == BitStatus(tables, SetPositions(code)[i], name)
    ensures forall i, j :: 0 <= i < j < |SetPositions(code)| ==> SetPositions(code)[i] > SetPositions(code)[j]
  {
    var ps := SetPositions(code);
    PositionsExact(BitsOf(code), 32);
    forall i | 0 <= i < |ps|
      ensures ps[i] < 32 && HasBit(code, ps[i])
      ensures WmiStatuses(tables, code, name)[i] == BitStatus(tables, ps[i], name)
    {
      BitsOfIndex(code, ps[i]);
      StatusesAtIndex(tables, ps, name, i);
    }
  }

  /** A nonzero code yields one status per set bit, at least one. */
  lemma WmiStatusesCount(tables: StatusTables, code: bv32, name: string)
    requires code != 0
    ensures BitCount(code) >= 1
    ensures |WmiStatuses(tables, code, name)| == BitCount(code)
  {
    NonZeroCount(code);
    PositionsCount(BitsOf(code), 32);
  }

  lemma {:induction false} PositionsGrow(bits: seq<bool>, k: nat, j: nat)
    requires k <= j <= |bits|
    ensures |PositionsBelow(bits, k)| <= |PositionsBelow(bits, j)|
    decreases j
  {
    if k < j { PositionsGrow(bits, k, j - 1); }
  }

  /** Once as many set bits lie below `k` as below `j`, there are none in between. */
  lemma {:induction false} PositionsSettled(bits: seq<bool>, k: nat, j: nat)
    requires k <= j <= |bits|
    requires |PositionsBelow(bits, k)| == |PositionsBelow(bits, j)|
    ensures PositionsBelow(bits, k) == PositionsBelow(bits, j)
    decreases j
  {
    if k < j {
      PositionsGrow(bits, k, j - 1);
      assert !bits[j - 1];
      PositionsSettled(bits, k, j - 1);
    }
  }

  /** One more position: the bit at `k`, if set, goes in front. */
  lemma PositionsStep(tables: StatusTables, bits: seq<bool>, k: nat, name: string)
    requires k < |bits|
    ensures bits[k] ==>
              StatusesAt(tables, PositionsBelow(bits, k + 1), name)
                == [BitStatus(tables, k, name)] + StatusesAt(tables, PositionsBelow(bits, k), name)
    ensures !bits[k] ==> PositionsBelow(bits, k + 1) == PositionsBelow(bits, k)
  {
    if bits[k] {
      var ps := PositionsBelow(bits, k);
      assert PositionsBelow(bits, k + 1) == [k] + ps;
      assert ([k] + ps)[1..] == ps;
    }
  }

  /** With the sign bit of `code` clear, Java's `(x & code) > 0` is a plain nonzero test. */
  lemma SignedWhenSignClear(x: bv32, code: bv32)
    requires code & 0x8000_0000 == 0
    ensures SignedPositive(x & code) == (x & code != 0)
  {
  }

  /** The loop's `mask <<= 1` moves the mask from bit `k` to bit `k + 1`. */
  lemma MaskShift(mask: bv32, k: nat)
    requires mask == Bit(k)
    ensures mask << 1 == Bit(k + 1)
  {
    BitStep(k);
  }

  /** The status the loop stores for the mask at bit `k`. */
  lemma MaskStatus(tables: StatusTables, mask: bv32, k: nat, name: string)
    requires mask == Bit(k)
    ensures Create(LookupCode(tables, mask), name) == BitStatus(tables, k, name)
  {
  }

  /** Bit 31 of the code clear means the code has no sign bit. */
  lemma SignClear(code: bv32)
    requires !HasBit(code, 31)
    ensures code & 0x8000_0000 == 0
  {
    SignBit();
  }

  /** The test `(mask & code) != 0` reads bit `k` of any code. */
  lemma MaskTest(code: bv32, mask: bv32, k: nat)
    requires k < 32 && mask == Bit(k)
    ensures (mask & code != 0) == BitsOf(code)[k]
  {
    assert Bit(k) & code == mask & code;
    BitsOfIndex(code, k);
  }

  /** The loop's test `(mask & code) > 0` reads bit `k` of a code whose bit 31 is clear. */
  lemma SignedMaskTest(code: bv32, mask: bv32, k: nat)
    requires k < 32 && mask == Bit(k)
    requires !HasBit(code, 31)
    ensures SignedPositive(mask & code) == BitsOf(code)[k]
  {
    SignClear(code);
    SignedWhenSignClear(mask, code);
    MaskTest(code, mask, k);
  }

  /**
   * getFromWMICode as written: the mask walks up from bit 0 and each set bit
   * is stored from the end of the array backwards. The Java test is the
   * signed `(mask & code) > 0`, which never holds for bit 31 (see
   * SignBitNeverCounted), so the loop ends only when bit 31 is clear.
   */
  method GetFromWmiCode(tables: StatusTables, code: bv32, name: string) returns (statuses: array<PrinterStatus>)
    requires !HasBit(code, 31)
    ensures statuses[..] == WmiStatuses(tables, code, name)
  {
    if code == 0 {
      statuses := new PrinterStatus[1](_ => Create(Some(tables.ok), name));
      return;
    }
    ghost var bits := BitsOf(code);
    var bitPopulation := BitCount(code);
    PositionsCount(bits, 32);
    statuses := new PrinterStatus[bitPopulation](_ => Create(None, name));
    var mask: bv32 := 1;
    ghost var k: nat := 0;
    while bitPopulation > 0
      invariant k <= 32 && mask == Bit(k)
      invariant statuses.Length == |PositionsBelow(bits, 32)|
      invariant bitPopulation + |PositionsBelow(bits, k)| == statuses.Length
      invariant statuses[bitPopulation..] == StatusesAt(tables, PositionsBelow(bits, k), name)
      decreases 32 - k
    {
      SignedMaskTest(code, mask, k);
      PositionsStep(tables, bits, k, name);
      if SignedPositive(mask & code) {
        ghost var done := statuses[bitPopulation..];
        bitPopulation := bitPopulation - 1;
        MaskStatus(tables, mask, k, name);
        statuses[bitPopulation] := Create(LookupCode(tables, mask), name);
        assert statuses[bitPopulation + 1..] == done;
        assert statuses[bitPopulation..] == [BitStatus(tables, k, name)] + done;
      }
      MaskShift(mask, k);
      mask := mask << 1;
      k := k + 1;
    }
    PositionsSettled(bits, k, 32);
    assert statuses[..] == statuses[bitPopulation..];
  }

  /** No bit below 31 is set in Integer.MIN_VALUE. */
  lemma {:induction false} SignWordLowBits(k: nat)
    requires k <= 31
    ensures CountBelow(BitsOf(0x8000_0000), k) == 0
  {
    if k > 0 {
      LowBitNotSign(k - 1);
      BitsOfIndex(0x8000_0000, k - 1);
      SignWordLowBits(k - 1);
    }
  }

  /**
   * For code 0x80000000 (Integer.MIN_VALUE) Integer.bitCount is 1, so the
   * loop waits for one match, but `(mask & code) > 0` is false for every
   * mask: bitPopulation never reaches 0 and getFromWMICode does not return.
   */
  lemma SignBitNeverCounted(mask: bv32)
    ensures BitCount(0x8000_0000) == 1
    ensures !SignedPositive(mask & 0x8000_0000)
  {
    SignWordLowBits(31);
    SignBit();
    BitsOfIndex(0x8000_0000, 31);
  }

  /**
   * getFromWMICode with the bit test `(mask & code) != 0`: the same loop,
   * which returns one status per set bit for every 32-bit code.
   */
  method GetFromWmiCodeAllBits(tables: StatusTables, code: bv32, name: string) returns (statuses: array<PrinterStatus>)
    ensures statuses[..] == WmiStatuses(tables, code, name)
  {
    if code == 0 {
      statuses := new PrinterStatus[1](_ => Create(Some(tables.ok), name));
      return;
    }
    ghost var bits := BitsOf(code);
    var bitPopulation := BitCount(code);
    PositionsCount(bits, 32);
    statuses := new PrinterStatus[bitPopulation](_ => Create(None, name));
    var mask: bv32 := 1;
    ghost var k: nat := 0;
    while bitPopulation > 0
      invariant k <= 32 && mask == Bit(k)
      invariant statuses.Length == |PositionsBelow(bits, 32)|
      invariant bitPopulation + |PositionsBelow(bits, k)| == statuses.Length
      invariant statuses[bitPopulation..] == StatusesAt(tables, PositionsBelow(bits, k), name)
      decreases 32 - k
    {
      MaskTest(code, mask, k);
      PositionsStep(tables, bits, k, name);
      if mask & code != 0 {
        ghost var done := statuses[bitPopulation..];
        bitPopulation := bitPopulation - 1;
        MaskStatus(tables, mask, k, name);
        statuses[bitPopulation] := Create(LookupCode(tables, mask), name);
        assert statuses[bitPopulation + 1..] == done;
        assert statuses[bitPopulation..] == [BitStatus(tables, k, name)] + done;
      }
      MaskShift(mask, k);
      mask := mask << 1;
      k := k + 1;
    }
    PositionsSettled(bits, k, 32);
    assert statuses[..] == statuses[bitPopulation..];
  }

  // ---------------------------------------------------------------------
  // getFromCupsString

  predicate IsDash(c: char) { c == '-' }

  /** Length of a `-error`, `-warning` or `-report` match at the start of `s`, or 0. */
  function QualifierAt(s: string): (n: nat)
    ensures n <= |s|
    ensures n > 0 ==> IsDash(s[0])
  {
    if |s| < 2 || !IsDash(s[0]) then 0
    else if s[1] == 'e' then (if StartsWith(s, "-error") then 6 else 0)
    else if s[1] == 'w' then (if StartsWith(s, "-warning") then 8 else 0)
    else if s[1] == 'r' then (if StartsWith(s, "-report") then 7 else 0)
    else 0
  }

  /** replaceAll("-(error|warning|report)", ""): one left-to-right pass deleting every match. */
  function StripQualifiers(s: string): (r: string)
    ensures |r| <= |s|
    decreases |s|
  {
    if s == [] then []
    else if QualifierAt(s) > 0 then StripQualifiers(s[QualifierAt(s)..])
    else [s[0]] + StripQualifiers(s[1..])
  }

  /** The reason as getFromCupsString looks it up. */
  function NormalizeReason(reason: string): string {
    StripQualifiers(Lower(reason))
  }

  /** getFromCupsString: null for a null reason, else the looked-up type or UNKNOWN_STATUS. */
  function GetFromCupsString(tables: StatusTables, reason: Option<string>, name: string): (r: Option<PrinterStatus>)
    ensures r.None? <==> reason.None?
    ensures r.Some? ==> r.value.issuingPrinterName == name
    ensures r.Some? ==> r.value.cupsString == NormalizeReason(reason.value)
    ensures r.Some? && NormalizeReason(reason.value) !in tables.cupsLookup ==>
              r.value.statusType == Some(tables.unknown)
    ensures r.Some? && NormalizeReason(reason.value) in tables.cupsLookup ==>
              r.value.statusType == Some(tables.cupsLookup[NormalizeReason(reason.value)])
  {
    match reason
    case None => None
    case Some(text) =>
      var normal := NormalizeReason(text);
      var statusType := if normal in tables.cupsLookup then tables.cupsLookup[normal] else tables.unknown;
      Some(PrinterStatus(Some(statusType), name, normal))
  }

  /** A prefix without dashes passes through unchanged. */
  lemma {:induction false} StripKeepsDashFree(a: string, t: string)
    requires forall i :: 0 <= i < |a| ==> !IsDash(a[i])
    ensures StripQualifiers(a + t) == a + StripQualifiers(t)
  {
    if a == [] {
      assert a + t == t;
    } else {
      var s := a + t;
      assert s[0] == a[0];
      assert QualifierAt(s) == 0;
      assert s[1..] == a[1..] + t;
      StripKeepsDashFree(a[1..], t);
      assert StripQualifiers(s) == [a[0]] + (a[1..] + StripQualifiers(t));
      assert [a[0]] + (a[1..] + StripQualifiers(t)) == a + StripQualifiers(t);
    }
  }

  /** Between dash-free texts a qualifier is removed and the two texts are joined. */
  lemma {:induction false} StripsQualifierAnywhere(a: string, q: string, b: string)
    requires q == "-error" || q == "-warning" || q == "-report"
    requires forall i :: 0 <= i < |a| ==> !IsDash(a[i])
    requires forall i :: 0 <= i < |b| ==> !IsDash(b[i])
    ensures StripQualifiers(a + q + b) == a + b
  {
    StripKeepsDashFree(a, q + b);
    assert a + q + b == a + (q + b);
    var s := q + b;
    assert s[..|q|] == q;
    if q == "-error" {
      assert StartsWith(s, "-error");
    } else if q == "-warning" {
      assert s[1] == 'w';
      assert StartsWith(s, "-warning");
    } else {
      assert s[1] == 'r';
      assert StartsWith(s, "-report");
    }
    assert QualifierAt(s) == |q|;
    assert s[|q|..] == b;
    StripKeepsDashFree(b, []);
    assert b + [] == b;
  }

  /** A pattern with no dash after its first character does not run across a dash. */
  lemma StartsWithAcrossDash(a: string, b: string, p: string)
    requires |a| >= 1 && (b == [] || IsDash(b[0]))
    requires forall i :: 1 <= i < |p| ==> !IsDash(p[i])
    ensures StartsWith(a + b, p) <==> StartsWith(a, p)
  {
    var s := a + b;
    if |p| <= |a| {
      assert s[..|p|] == a[..|p|];
    } else if |p| <= |s| {
      assert s[..|p|][|a|] == b[0];
      assert !IsDash(p[|a|]);
    }
  }

  /** Text ending just before a dash starts the same qualifier with or without what follows. */
  lemma QualifierSplit(a: string, b: string)
    requires a != [] && (b == [] || IsDash(b[0]))
    ensures QualifierAt(a + b) == QualifierAt(a)
  {
    var s := a + b;
    assert s[0] == a[0];
    if |a| == 1 {
      if |s| >= 2 {
        assert s[1] == b[0];
      }
    } else {
      assert s[1] == a[1];
      StartsWithAcrossDash(a, b, "-error");
      StartsWithAcrossDash(a, b, "-warning");
      StartsWithAcrossDash(a, b, "-report");
    }
  }

  /** A qualifier at the start of the text is skipped. */
  lemma StripSkipsQualifier(s: string, n: nat)
    requires 0 < n <= |s| && QualifierAt(s) == n
    ensures StripQualifiers(s) == StripQualifiers(s[n..])
  {
  }

  /** A character that starts no qualifier is kept. */
  lemma StripKeepsChar(s: string)
    requires s != [] && QualifierAt(s) == 0
    ensures StripQualifiers(s) == [s[0]] + StripQualifiers(s[1..])
  {
  }

  /** Dropping a prefix of the left part of a concatenation. */
  lemma DropFromLeft(a: string, b: string, n: nat)
    requires n <= |a|
    ensures (a + b)[n..] == a[n..] + b
  {
  }

  /** The step of StripSplitsBeforeDash past a qualifier, given the split of the rest. */
  lemma SplitPastQualifier(a: string, b: string, n: nat)
    requires 0 < n <= |a| && QualifierAt(a) == n && QualifierAt(a + b) == n
    requires StripQualifiers(a[n..] + b) == StripQualifiers(a[n..]) + StripQualifiers(b)
    ensures StripQualifiers(a + b) == StripQualifiers(a) + StripQualifiers(b)
  {
    StripSkipsQualifier(a + b, n);
    DropFromLeft(a, b, n);
    StripSkipsQualifier(a, n);
  }

  /** The step of StripSplitsBeforeDash past a kept character, given the split of the rest. */
  lemma SplitPastChar(a: string, b: string)
    requires a != [] && QualifierAt(a) == 0 && QualifierAt(a + b) == 0
    requires StripQualifiers(a[1..] + b) == StripQualifiers(a[1..]) + StripQualifiers(b)
    ensures StripQualifiers(a + b) == StripQualifiers(a) + StripQualifiers(b)
  {
    StripKeepsChar(a + b);
    DropFromLeft(a, b, 1);
    StripKeepsChar(a);
    AppendAssociative([a[0]], StripQualifiers(a[1..]), StripQualifiers(b));
  }

  lemma AppendAssociative(x: string, y: string, z: string)
    ensures x + (y + z) == (x + y) + z
  {
  }

  /**
   * The pass splits before any dash: no qualifier runs across one, so the
   * text before a dash and the text from it are stripped independently.
   */
  lemma {:induction false} StripSplitsBeforeDash(a: string, b: string)
    requires b == [] || IsDash(b[0])
    ensures StripQualifiers(a + b) == StripQualifiers(a) + StripQualifiers(b)
    decreases |a|
  {
    if a == [] {
      assert a + b == b;
    } else if QualifierAt(a) > 0 {
      var n := QualifierAt(a);
      StripSplitsBeforeDash(a[n..], b);
      QualifierSplit(a, b);
      SplitPastQualifier(a, b, n);
    } else {
      StripSplitsBeforeDash(a[1..], b);
      QualifierSplit(a, b);
      SplitPastChar(a, b);
    }
  }

  /** A qualifier at the start is deleted and the pass goes on after it. */
  lemma StripsLeadingQualifier(q: string, t: string)
    requires q == "-error" || q == "-warning" || q == "-report"
    ensures StripQualifiers(q + t) == StripQualifiers(t)
  {
    var s := q + t;
    assert s[..|q|] == q;
    if q == "-error" {
      assert StartsWith(s, "-error");
    } else if q == "-warning" {
      assert s[1] == 'w';
      assert StartsWith(s, "-warning");
    } else {
      assert s[1] == 'r';
      assert StartsWith(s, "-report");
    }
    assert QualifierAt(s) == |q|;
    assert s[|q|..] == t;
  }

  /**
   * Every `-error`, `-warning` or `-report` is deleted, whatever stands
   * before and after it: the text on both sides is stripped on its own.
   */
  lemma {:induction false} StripsEveryQualifier(a: string, q: string, t: string)
    requires q == "-error" || q == "-warning" || q == "-report"
    ensures StripQualifiers(a + q + t) == StripQualifiers(a) + StripQualifiers(t)
  {
    assert a + q + t == a + (q + t);
    assert (q + t)[0] == q[0];
    StripSplitsBeforeDash(a, q + t);
    StripsLeadingQualifier(q, t);
  }

  /** The decoder ignores letter case in the reason. */
  lemma CupsReasonCaseInsensitive(tables: StatusTables, reason: string, name: string)
    ensures GetFromCupsString(tables, Some(reason), name) == GetFromCupsString(tables, Some(Lower(reason)), name)
  {
    LowerIdempotent(reason);
  }

  /** Lower-casing text without capital letters changes nothing. */
  lemma LowerKeepsLowercase(s: string)
    requires forall i :: 0 <= i < |s| ==> !('A' <= s[i] <= 'Z')
    ensures Lower(s) == s
  {
  }

  /** A dash that starts no qualifier is kept. */
  lemma StripKeepsPlainDash(s: string)
    requires s != [] && IsDash(s[0])
    requires QualifierAt(s) == 0
    ensures StripQualifiers(s) == "-" + StripQualifiers(s[1..])
  {
  }

  /** Text that differs from a pattern at some index does not start with it. */
  lemma DiffersAt(s: string, p: string, i: nat)
    requires i < |p| && i < |s| && s[i] != p[i]
    ensures !StartsWith(s, p)
  {
    if |p| <= |s| {
      assert s[..|p|][i] == s[i];
    }
  }

  /** A dash followed by a letter other than `e`, `w` or `r` starts no qualifier. */
  lemma NoQualifierAfter(s: string)
    requires |s| >= 2 && IsDash(s[0]) && s[1] != 'e' && s[1] != 'w' && s[1] != 'r'
    ensures QualifierAt(s) == 0
  {
    DiffersAt(s, "-error", 1);
    DiffersAt(s, "-warning", 1);
    DiffersAt(s, "-report", 1);
  }

  /** A dash followed by a letter other than `e`, `w` or `r` is kept. */
  lemma {:induction false} StripAfterPlainDash(rest: string)
    requires rest != [] && rest[0] != 'e' && rest[0] != 'w' && rest[0] != 'r'
    ensures StripQualifiers("-" + rest) == "-" + StripQualifiers(rest)
  {
    var s := "-" + rest;
    assert s[1] == rest[0];
    NoQualifierAfter(s);
    StripKeepsPlainDash(s);
    assert s[1..] == rest;
  }

  /**
   * A qualifier after a plain dash and dash-free text is removed and the
   * text on both sides of it is joined, the plain dash kept.
   */
  lemma {:induction false} SinglePassJoinsAroundQualifier(x: string, y: string)
    requires |x| >= 1 && x[0] != 'e' && x[0] != 'w' && x[0] != 'r'
    requires forall i :: 0 <= i < |x| ==> !IsDash(x[i])
    requires forall i :: 0 <= i < |y| ==> !IsDash(y[i])
    ensures StripQualifiers("-" + (x + "-error" + y)) == "-" + (x + y)
  {
    var rest := x + "-error" + y;
    assert rest[0] == x[0];
    StripsQualifierAnywhere(x, "-error", y);
    StripAfterPlainDash(rest);
  }

  // ---------------------------------------------------------------------
  // toString

  /** The part of toString before the optional CUPS string. */
  function Header(t: PrinterStatusType, name: string): string {
    t.name + ": Level " + t.severity + ", StatusCode " + IntToString(t.code) + ", From " + name
  }

  /** toString: None models the NullPointerException for a status without a type. */
  function ToString(s: PrinterStatus): (r: Option<string>)
    ensures r.None? <==> s.statusType.None?
    ensures r.Some? ==> StartsWith(r.value, Header(s.statusType.value, s.issuingPrinterName))
    ensures r.Some? ==> (s.cupsString == "" <==> |r.value| == |Header(s.statusType.value, s.issuingPrinterName)|)
    ensures r.Some? && s.cupsString != "" ==>
              r.value[|Header(s.statusType.value, s.issuingPrinterName)|..] == ", CUPS string " + s.cupsString
  {
    match s.statusType
    case None => None
    case Some(t) =>
      var head := Header(t, s.issuingPrinterName);
      Some(if s.cupsString != "" then head + ", CUPS string " + s.cupsString else head)
  }
}
