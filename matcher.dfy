/**
 * PrintServiceMatcher.matchPrinter and findPrinterName
 * (src/qz/printer/PrintServiceMatcher.java): the search of the installed
 * printers for the one a query names, preferring an exact name, then a name
 * that begins with the query, then one that contains it.
 *
 * The printer list and the default printer, which the source obtains from
 * javax.print, are parameters; so is the operating-system test.
 */
module PrinterMatcher {
  import opened JavaStrings

  /**
   * A NativePrinter as the search sees it: getName() (None where it is
   * null), the value of getLegacyName() (None where the name or its value is
   * null) and the name of its PrintService.
   */
  datatype Candidate = Candidate(name: Option<string>, legacyName: Option<string>, serviceName: string)

  /**
   * How a candidate compares with the lower-cased query. `Exact` is an
   * equal primary name, which ends the scan; `LegacyExact` an equal legacy
   * name, which does not.
   */
  datatype Kind = NoMatch | Partial | Begins | LegacyExact | Exact

  /** The variable of matchPrinter a kind is stored in, in order of precedence. */
  function Rank(k: Kind): nat {
    match k
    case NoMatch => 0
    case Partial => 1
    case Begins => 2
    case LegacyExact => 3
    case Exact => 3
  }

  /** Equal, begins-with or contains, on the lower-cased name. */
  function NameKind(name: string, q: string): Kind {
    var n := Lower(name);
    if n == q then Exact
    else if StartsWith(n, q) then Begins
    else if Contains(n, q) then Partial
    else NoMatch
  }

  /**
   * One pass of the loop body: a null name is skipped, and the legacy name
   * is consulted only on macOS and only when the primary name did not match.
   */
  function Classify(c: Candidate, q: string, isMac: bool): Kind {
    if c.name.None? then NoMatch
    else if NameKind(c.name.value, q) != NoMatch then NameKind(c.name.value, q)
    else if !isMac || c.legacyName.None? then NoMatch
    else if NameKind(c.legacyName.value, q) == Exact then LegacyExact
    else NameKind(c.legacyName.value, q)
  }

  /** The index of the first candidate whose primary name equals the query, or |cs|. */
  function FirstExact(cs: seq<Candidate>, q: string, isMac: bool): (n: nat)
    ensures n <= |cs|
    ensures forall j :: 0 <= j < n ==> Classify(cs[j], q, isMac) != Exact
    ensures n < |cs| ==> Classify(cs[n], q, isMac) == Exact
  {
    if cs == [] then 0
    else if Classify(cs[0], q, isMac) == Exact then 0
    else 1 + FirstExact(cs[1..], q, isMac)
  }

  /** The last candidate of kind `k`: the value the overwritten variable ends with. */
  function LastOf(cs: seq<Candidate>, q: string, isMac: bool, k: Kind): (r: Option<Candidate>)
    ensures r.Some? ==> r.value in cs && Classify(r.value, q, isMac) == k
  {
    if cs == [] then None
    else if Classify(cs[|cs| - 1], q, isMac) == k then Some(cs[|cs| - 1])
    else LastOf(cs[..|cs| - 1], q, isMac, k)
  }

  /** The closing selection: exact, else begins, else partial. */
  function Closest(exact: Option<Candidate>, begins: Option<Candidate>, partial: Option<Candidate>): Option<Candidate> {
    if exact.Some? then exact else if begins.Some? then begins else partial
  }

  /** True when the query names the default printer, compared case-sensitively. */
  predicate IsDefault(query: string, defaultPrinter: Option<Candidate>) {
    defaultPrinter.Some? && defaultPrinter.value.name == Some(query)
  }

  /** What matchPrinter returns, with None for null. */
  function MatchSpec(query: string, defaultPrinter: Option<Candidate>, cs: seq<Candidate>, isMac: bool): Option<Candidate> {
    if IsDefault(query, defaultPrinter) then defaultPrinter
    else
      var q := Lower(query);
      var stop := FirstExact(cs, q, isMac);
      var scanned := cs[..stop];
      Closest(if stop < |cs| then Some(cs[stop]) else LastOf(scanned, q, isMac, LegacyExact),
              LastOf(scanned, q, isMac, Begins),
              LastOf(scanned, q, isMac, Partial))
  }

  lemma LastOfStep(cs: seq<Candidate>, i: nat, q: string, isMac: bool, k: Kind)
    requires i < |cs|
    ensures LastOf(cs[..i + 1], q, isMac, k) ==
            if Classify(cs[i], q, isMac) == k then Some(cs[i]) else LastOf(cs[..i], q, isMac, k)
  {
    assert cs[..i + 1][..i] == cs[..i];
  }

  /** The overwritten variable is empty exactly when no candidate had its kind. */
  lemma {:induction false} LastOfNone(cs: seq<Candidate>, q: string, isMac: bool, k: Kind)
    ensures LastOf(cs, q, isMac, k).None? <==> forall j :: 0 <= j < |cs| ==> Classify(cs[j], q, isMac) != k
  {
    if cs != [] {
      var init := cs[..|cs| - 1];
      LastOfNone(init, q, isMac, k);
      assert forall j :: 0 <= j < |init| ==> init[j] == cs[j];
    }
  }

  /** A later candidate of the same kind overwrites an earlier one. */
  lemma {:induction false} LastOfIsLast(cs: seq<Candidate>, q: string, isMac: bool, k: Kind, i: nat)
    requires i < |cs| && Classify(cs[i], q, isMac) == k
    requires forall j :: i < j < |cs| ==> Classify(cs[j], q, isMac) != k
    ensures LastOf(cs, q, isMac, k) == Some(cs[i])
  {
    if i < |cs| - 1 {
      var init := cs[..|cs| - 1];
      assert init[i] == cs[i];
      assert forall j :: i < j < |init| ==> init[j] == cs[j];
      LastOfIsLast(init, q, isMac, k, i);
    }
  }

  /**
   * One pass of the loop body on candidate `c`: which of the three variables
   * it overwrites, and whether it breaks out of the loop (an equal primary
   * name). The early returns are the loop's `continue` statements.
   */
  method Visit(c: Candidate, q: string, isMac: bool,
               exact: Option<Candidate>, begins: Option<Candidate>, partial: Option<Candidate>)
    returns (exact': Option<Candidate>, begins': Option<Candidate>, partial': Option<Candidate>, stop: bool)
    ensures stop <==> Classify(c, q, isMac) == Exact
    ensures exact' == if Rank(Classify(c, q, isMac)) == 3 then Some(c) else exact
    ensures begins' == if Classify(c, q, isMac) == Begins then Some(c) else begins
    ensures partial' == if Classify(c, q, isMac) == Partial then Some(c) else partial
  {
    exact', begins', partial', stop := exact, begins, partial, false;
    if c.name.None? {
      return;
    }
    var printerName := Lower(c.name.value);
    if printerName == q {
      exact' := Some(c);
      stop := true;
      return;
    }
    if StartsWith(printerName, q) {
      begins' := Some(c);
      return;
    }
    if Contains(printerName, q) {
      partial' := Some(c);
      return;
    }
    if isMac && c.legacyName.Some? {
      printerName := Lower(c.legacyName.value);
      if printerName == q {
        exact' := Some(c);
      } else if StartsWith(printerName, q) {
        begins' := Some(c);
      } else if Contains(printerName, q) {
        partial' := Some(c);
      }
    }
  }

  /** The scan, as in the source: a loop over the candidates that breaks at an equal primary name. */
  method MatchPrinter(query: string, defaultPrinter: Option<Candidate>, cs: seq<Candidate>, isMac: bool)
    returns (use: Option<Candidate>)
    ensures use == MatchSpec(query, defaultPrinter, cs, isMac)
  {
    if defaultPrinter.Some? && defaultPrinter.value.name == Some(query) {
      return defaultPrinter;
    }
    var q := Lower(query);
    var exact: Option<Candidate> := None;
    var begins: Option<Candidate> := None;
    var partial: Option<Candidate> := None;
    var i := 0;
    while i < |cs|
      invariant i <= |cs|
      invariant forall j :: 0 <= j < i ==> Classify(cs[j], q, isMac) != Exact
      invariant exact == LastOf(cs[..i], q, isMac, LegacyExact)
      invariant begins == LastOf(cs[..i], q, isMac, Begins)
      invariant partial == LastOf(cs[..i], q, isMac, Partial)
    {
      LastOfStep(cs, i, q, isMac, LegacyExact);
      LastOfStep(cs, i, q, isMac, Begins);
      LastOfStep(cs, i, q, isMac, Partial);
      var stop;
      exact, begins, partial, stop := Visit(cs[i], q, isMac, exact, begins, partial);
      if stop {
        break;
      }
      i := i + 1;
    }
    FirstExactAt(cs, q, isMac, i);
    if exact.Some? {
      use := exact;
    } else if begins.Some? {
      use := begins;
    } else if partial.Some? {
      use := partial;
    } else {
      use := None;
    }
  }

  /** The scan stops at `i` when nothing before it is an exact match and `i` is one or the end. */
  lemma {:induction false} FirstExactAt(cs: seq<Candidate>, q: string, isMac: bool, i: nat)
    requires i <= |cs|
    requires forall j :: 0 <= j < i ==> Classify(cs[j], q, isMac) != Exact
    requires i < |cs| ==> Classify(cs[i], q, isMac) == Exact
    ensures FirstExact(cs, q, isMac) == i
  {
    if cs != [] && i > 0 {
      FirstExactAt(cs[1..], q, isMac, i - 1);
    }
  }

  /** findPrinterName: the service name of the match, or None. */
  method FindPrinterName(query: string, defaultPrinter: Option<Candidate>, cs: seq<Candidate>, isMac: bool)
    returns (r: Option<string>)
    ensures r.None? <==> MatchSpec(query, defaultPrinter, cs, isMac).None?
    ensures r.Some? ==> r.value == MatchSpec(query, defaultPrinter, cs, isMac).value.serviceName
  {
    var printer := MatchPrinter(query, defaultPrinter, cs, isMac);
    if printer.Some? {
      r := Some(printer.value.serviceName);
    } else {
      r := None;
    }
  }

  // ---------------------------------------------------------------------
  // Properties of the search

  /** The result is the default printer or one of the candidates. */
  lemma MatchIsCandidate(query: string, defaultPrinter: Option<Candidate>, cs: seq<Candidate>, isMac: bool)
    ensures var r := MatchSpec(query, defaultPrinter, cs, isMac);
            r.Some? ==> r == defaultPrinter || r.value in cs
  {
    var stop := FirstExact(cs, Lower(query), isMac);
    assert forall c :: c in cs[..stop] ==> c in cs;
  }

  /** Without a default-printer hit, nothing is found exactly when no candidate matches at all. */
  lemma NoMatchIffNone(query: string, defaultPrinter: Option<Candidate>, cs: seq<Candidate>, isMac: bool)
    requires !IsDefault(query, defaultPrinter)
    ensures MatchSpec(query, defaultPrinter, cs, isMac).None? <==>
            forall j :: 0 <= j < |cs| ==> Classify(cs[j], Lower(query), isMac) == NoMatch
  {
    var q := Lower(query);
    var stop := FirstExact(cs, q, isMac);
    var scanned := cs[..stop];
    LastOfNone(scanned, q, isMac, LegacyExact);
    LastOfNone(scanned, q, isMac, Begins);
    LastOfNone(scanned, q, isMac, Partial);
    if forall j :: 0 <= j < |cs| ==> Classify(cs[j], q, isMac) == NoMatch {
      assert stop == |cs|;
      assert forall j :: 0 <= j < |scanned| ==> scanned[j] == cs[j];
    } else if stop == |cs| {
      var j :| 0 <= j < |cs| && Classify(cs[j], q, isMac) != NoMatch;
      assert scanned[j] == cs[j];
    }
  }

  /**
   * Precedence: the chosen candidate ranks at least as high as every
   * candidate in the list, and an equal primary name is always an exact
   * choice.
   */
  lemma MatchRanksHighest(query: string, defaultPrinter: Option<Candidate>, cs: seq<Candidate>, isMac: bool, i: nat)
    requires !IsDefault(query, defaultPrinter)
    requires i < |cs|
    ensures var r := MatchSpec(query, defaultPrinter, cs, isMac);
            Classify(cs[i], Lower(query), isMac) != NoMatch ==>
              r.Some? && Rank(Classify(cs[i], Lower(query), isMac)) <= Rank(Classify(r.value, Lower(query), isMac))
  {
    var q := Lower(query);
    var stop := FirstExact(cs, q, isMac);
    var scanned := cs[..stop];
    var k := Classify(cs[i], q, isMac);
    if stop == |cs| && k != NoMatch {
      assert scanned[i] == cs[i];
      if Rank(k) >= 2 {
        LastOfNone(scanned, q, isMac, LegacyExact);
        if k == Begins { LastOfNone(scanned, q, isMac, Begins); }
      } else {
        LastOfNone(scanned, q, isMac, Partial);
      }
    }
  }

  /** The first candidate whose primary name equals the query is returned. */
  lemma ExactWins(query: string, defaultPrinter: Option<Candidate>, cs: seq<Candidate>, isMac: bool, i: nat)
    requires !IsDefault(query, defaultPrinter)
    requires i < |cs| && Classify(cs[i], Lower(query), isMac) == Exact
    requires forall j :: 0 <= j < i ==> Classify(cs[j], Lower(query), isMac) != Exact
    ensures MatchSpec(query, defaultPrinter, cs, isMac) == Some(cs[i])
  {
    FirstExactAt(cs, Lower(query), isMac, i);
  }

  /**
   * Among candidates that begin with the query, the last one in the list
   * wins, when no candidate is an exact match.
   */
  lemma LastBeginsWins(query: string, defaultPrinter: Option<Candidate>, cs: seq<Candidate>, isMac: bool, i: nat)
    requires !IsDefault(query, defaultPrinter)
    requires forall j :: 0 <= j < |cs| ==> Rank(Classify(cs[j], Lower(query), isMac)) < 3
    requires i < |cs| && Classify(cs[i], Lower(query), isMac) == Begins
    requires forall j :: i < j < |cs| ==> Classify(cs[j], Lower(query), isMac) != Begins
    ensures MatchSpec(query, defaultPrinter, cs, isMac) == Some(cs[i])
  {
    var q := Lower(query);
    FirstExactAt(cs, q, isMac, |cs|);
    assert cs[..|cs|] == cs;
    LastOfNone(cs, q, isMac, LegacyExact);
    LastOfIsLast(cs, q, isMac, Begins, i);
  }

  /** Apart from the default-printer check, the query's letter case does not matter. */
  lemma ScanIgnoresCase(query: string, cs: seq<Candidate>, isMac: bool)
    ensures MatchSpec(query, None, cs, isMac) == MatchSpec(Lower(query), None, cs, isMac)
  {
    LowerIdempotent(query);
  }
}
