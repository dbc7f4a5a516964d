/**
 * VendorUrlPattern (src/qz/build/VendorUrlPattern.java): the JDK vendors
 * the build knows, how a vendor name given on the command line selects
 * one, and the download URL each vendor's pattern produces.
 */
module VendorUrl {
  import opened JavaStrings

  /** The enum constants, in declaration order. */
  datatype Vendor = Adopt | Semeru | Bell

  /** values(): the order getVendor tries them in. */
  const Vendors: seq<Vendor> := [Adopt, Semeru, Bell]

  /** The enum constant's name. */
  function Name(v: Vendor): string {
    match v
    case Adopt => "ADOPT"
    case Semeru => "SEMERU"
    case Bell => "BELL"
  }

  /**
   * The URL patterns, as the text between their "%s" placeholders: the
   * pattern is the pieces joined with "%s".
   */
  function Pattern(v: Vendor): (pieces: seq<string>)
    ensures |pieces| >= 1
  {
    match v
    case Adopt =>
      ["https://github.com/adoptium/temurin", "-binaries/releases/download/jdk-", "/OpenJDK", "U-jdk_",
       "_", "_", "_", ".", ""]
    case Semeru =>
      ["https://github.com/ibmruntimes/semeru", "-binaries/releases/download/jdk-", "_", "-",
       "/ibm-semeru-open-jdk_", "_", "_", "_", "-", ".", ""]
    case Bell =>
      ["https://download.bell-sw.com/java/", "/bellsoft-jdk", "-", "-", ".", ""]
  }

  // ---------------------------------------------------------------------
  // getVendor

  /** The index of the first candidate whose name begins the upper-cased vendor; |candidates| when none does. */
  function FirstVendor(upper: string, candidates: seq<Vendor>): (k: nat)
    ensures k <= |candidates|
    ensures forall j :: 0 <= j < k ==> !StartsWith(upper, Name(candidates[j]))
    ensures k < |candidates| ==> StartsWith(upper, Name(candidates[k]))
  {
    if candidates == [] then 0
    else if StartsWith(upper, Name(candidates[0])) then 0
    else 1 + FirstVendor(upper, candidates[1..])
  }

  /**
   * getVendor: the first vendor, in declaration order, whose name is a
   * prefix of the upper-cased argument; None for a null argument or one
   * that matches no vendor.
   */
  function GetVendor(vendor: Option<string>): (r: Option<Vendor>)
    ensures vendor.None? ==> r.None?
    ensures r.Some? ==> StartsWith(Upper(vendor.value), Name(r.value))
    ensures r.Some? && r.value != Adopt ==> !StartsWith(Upper(vendor.value), Name(Adopt))
    ensures r == Some(Bell) ==> !StartsWith(Upper(vendor.value), Name(Semeru))
  {
    if vendor.None? then None
    else
      var k := FirstVendor(Upper(vendor.value), Vendors);
      if k < |Vendors| then Some(Vendors[k]) else None
  }

  /** getVendor of a non-null argument is null exactly when no vendor's name begins the upper-cased argument. */
  lemma GetVendorSpec(vendor: Option<string>)
    ensures vendor.Some? ==>
              (GetVendor(vendor).None? <==> forall v: Vendor :: !StartsWith(Upper(vendor.value), Name(v)))
  {
    if vendor.Some? {
      var k := FirstVendor(Upper(vendor.value), Vendors);
      forall v: Vendor | k == |Vendors|
        ensures !StartsWith(Upper(vendor.value), Name(v))
      {
        assert v == Vendors[if v.Adopt? then 0 else if v.Semeru? then 1 else 2];
      }
    }
  }

  /** ADOPT wins over a later vendor whenever it matches. */
  lemma AdoptFirst(vendor: string)
    requires StartsWith(Upper(vendor), "ADOPT")
    ensures GetVendor(Some(vendor)) == Some(Adopt)
  {
  }

  /** The lookup ignores case: upper-casing the argument first changes nothing. */
  lemma GetVendorIgnoresCase(vendor: string)
    ensures GetVendor(Some(vendor)) == GetVendor(Some(Upper(vendor)))
  {
    UpperIdempotent(vendor);
  }

  // ---------------------------------------------------------------------
  // format

  /**
   * String.format with "%s" conversions only: the pieces of the pattern
   * with the arguments between them, in order; surplus arguments are
   * ignored, and a missing one is an error (None).
   */
  function Fill(pieces: seq<string>, args: seq<string>): (r: Option<string>)
    requires |pieces| >= 1
    ensures |args| + 1 < |pieces| <==> r.None?
  {
    if |pieces| == 1 then Some(pieces[0])
    else if args == [] then None
    else
      var rest := Fill(pieces[1..], args[1..]);
      if rest.None? then None else Some(pieces[0] + args[0] + rest.value)
  }

  /** One placeholder: the first piece and the first argument go before the rest. */
  lemma FillStep(pieces: seq<string>, args: seq<string>, rest: string)
    requires |pieces| >= 2 && |args| >= 1 && Fill(pieces[1..], args[1..]) == Some(rest)
    ensures Fill(pieces, args) == Some(pieces[0] + args[0] + rest)
  {
  }

  /** Moving one literal-and-argument pair from the right-nested tail onto the left-nested head. */
  lemma ShiftPair(u: string, c: string, v: string, t: string)
    ensures u + (c + v + t) == u + c + v + t
  {
    assert c + v + t == c + (v + t);
    assert u + (c + (v + t)) == u + c + (v + t);
    assert u + c + (v + t) == u + c + v + t;
  }

  /** Filling a pattern with n placeholders takes its first n arguments, each in its place. */
  lemma {:induction false} FillPlaces(pieces: seq<string>, args: seq<string>, k: nat)
    requires |pieces| >= 1 && |args| + 1 >= |pieces| && k + 1 < |pieces|
    ensures var r := Fill(pieces, args).value;
            var before := Fill(pieces[..k + 1], args[..k]).value;
            |before| + |args[k]| <= |r| && r[..|before| + |args[k]|] == before + args[k]
    decreases |pieces|
  {
    var r := Fill(pieces, args).value;
    var rest := Fill(pieces[1..], args[1..]).value;
    assert r == pieces[0] + args[0] + rest;
    if k == 0 {
      assert pieces[..1][1..] == [] && Fill(pieces[..1], args[..0]).value == pieces[0];
      assert r[..|pieces[0]| + |args[0]|] == pieces[0] + args[0];
    } else {
      FillPlaces(pieces[1..], args[1..], k - 1);
      assert pieces[1..][..k] == pieces[..k + 1][1..];
      assert args[1..][..k - 1] == args[..k][1..];
      var before := Fill(pieces[..k + 1], args[..k]).value;
      var inner := Fill(pieces[1..][..k], args[1..][..k - 1]).value;
      assert before == pieces[0] + args[0] + inner;
      assert args[1..][k - 1] == args[k];
      assert r[..|before| + |args[k]|] == pieces[0] + args[0] + rest[..|inner| + |args[k]|];
    }
  }

  /**
   * format: the URL of the vendor getVendor selects, with the arguments each
   * vendor's pattern takes; None where getVendor gives null and the switch
   * on it throws.
   */
  function VendorFormat(vendor: Option<string>, arch: string, platform: string, gcEngine: string,
                        javaMajor: string, javaVersion: string, javaVersionFormatted: string,
                        gcVer: string, fileExt: string): (r: Option<string>)
    ensures GetVendor(vendor).None? <==> r.None?
  {
    match GetVendor(vendor)
    case None => None
    case Some(Bell) => Fill(Pattern(Bell), [javaVersion, javaVersion, platform, arch, fileExt])
    case Some(Semeru) =>
      Fill(Pattern(Semeru), [javaMajor, javaVersion, gcEngine, gcVer, arch, platform, javaVersionFormatted, gcEngine, gcVer, fileExt])
    case Some(Adopt) =>
      Fill(Pattern(Adopt), [javaMajor, javaVersion, javaMajor, arch, platform, gcEngine, javaVersionFormatted, fileExt])
  }

  /** Filling from piece k on: piece k and argument k go before what the later pieces give. */
  lemma FillAt(p: seq<string>, a: seq<string>, k: nat, rest: string)
    requires k + 1 < |p| && k < |a| && Fill(p[k + 1..], a[k + 1..]) == Some(rest)
    ensures Fill(p[k..], a[k..]) == Some(p[k] + a[k] + rest)
  {
    FillStep(p[k..], a[k..], rest);
    assert p[k..][1..] == p[k + 1..] && a[k..][1..] == a[k + 1..];
  }

  /** Filling from the last piece on gives that piece alone. */
  lemma FillLast(p: seq<string>, a: seq<string>)
    requires |p| >= 1 && |a| + 1 >= |p|
    ensures Fill(p[|p| - 1..], a[|p| - 1..]) == Some(p[|p| - 1])
  {
    assert p[|p| - 1..] == [p[|p| - 1]];
  }

  /** A pattern with five placeholders, filled. */
  lemma FillFive(p: seq<string>, a: seq<string>)
    requires |p| == 6 && |a| == 5
    ensures Fill(p, a) == Some(p[0] + a[0] + (p[1] + a[1] + (p[2] + a[2] + (p[3] + a[3] + (p[4] + a[4] + p[5])))))
  {
    FillLast(p, a);
    FillAt(p, a, 4, p[5]);
    var r4 := p[4] + a[4] + p[5];
    FillAt(p, a, 3, r4);
    var r3 := p[3] + a[3] + r4;
    FillAt(p, a, 2, r3);
    var r2 := p[2] + a[2] + r3;
    FillAt(p, a, 1, r2);
    var r1 := p[1] + a[1] + r2;
    FillAt(p, a, 0, r1);
    assert p[0..] == p && a[0..] == a;
  }

  /** A pattern with eight placeholders, filled. */
  lemma FillEight(p: seq<string>, a: seq<string>)
    requires |p| == 9 && |a| == 8
    ensures Fill(p, a) == Some(p[0] + a[0] + (p[1] + a[1] + (p[2] + a[2] + (p[3] + a[3] + (p[4] + a[4] + (p[5] + a[5] + (p[6] + a[6] + (p[7] + a[7] + p[8]))))))))
  {
    FillLast(p, a);
    FillAt(p, a, 7, p[8]);
    var r7 := p[7] + a[7] + p[8];
    FillAt(p, a, 6, r7);
    var r6 := p[6] + a[6] + r7;
    FillAt(p, a, 5, r6);
    var r5 := p[5] + a[5] + r6;
    FillAt(p, a, 4, r5);
    var r4 := p[4] + a[4] + r5;
    FillAt(p, a, 3, r4);
    var r3 := p[3] + a[3] + r4;
    FillAt(p, a, 2, r3);
    var r2 := p[2] + a[2] + r3;
    FillAt(p, a, 1, r2);
    var r1 := p[1] + a[1] + r2;
    FillAt(p, a, 0, r1);
    assert p[0..] == p && a[0..] == a;
  }

  /** A pattern with ten placeholders, filled. */
  lemma FillTen(p: seq<string>, a: seq<string>)
    requires |p| == 11 && |a| == 10
    ensures Fill(p, a) == Some(p[0] + a[0] + (p[1] + a[1] + (p[2] + a[2] + (p[3] + a[3] + (p[4] + a[4] + (p[5] + a[5] + (p[6] + a[6] + (p[7] + a[7] + (p[8] + a[8] + (p[9] + a[9] + p[10]))))))))))
  {
    FillLast(p, a);
    FillAt(p, a, 9, p[10]);
    var r9 := p[9] + a[9] + p[10];
    FillAt(p, a, 8, r9);
    var r8 := p[8] + a[8] + r9;
    FillAt(p, a, 7, r8);
    var r7 := p[7] + a[7] + r8;
    FillAt(p, a, 6, r7);
    var r6 := p[6] + a[6] + r7;
    FillAt(p, a, 5, r6);
    var r5 := p[5] + a[5] + r6;
    FillAt(p, a, 4, r5);
    var r4 := p[4] + a[4] + r5;
    FillAt(p, a, 3, r4);
    var r3 := p[3] + a[3] + r4;
    FillAt(p, a, 2, r3);
    var r2 := p[2] + a[2] + r3;
    FillAt(p, a, 1, r2);
    var r1 := p[1] + a[1] + r2;
    FillAt(p, a, 0, r1);
    assert p[0..] == p && a[0..] == a;
  }

  /** The BELL pattern filled with its five arguments, nested to the right as Fill builds it. */
  lemma BellFill(javaVersion: string, platform: string, arch: string, fileExt: string)
    ensures Fill(Pattern(Bell), [javaVersion, javaVersion, platform, arch, fileExt]) ==
            Some("https://download.bell-sw.com/java/" + javaVersion + ("/bellsoft-jdk" + javaVersion +
                 ("-" + platform + ("-" + arch + ("." + fileExt + "")))))
  {
    FillFive(Pattern(Bell), [javaVersion, javaVersion, platform, arch, fileExt]);
  }

  /** A BELL URL: the Java version twice, then platform, architecture and extension. */
  lemma BellUrl(vendor: string, arch: string, platform: string, gcEngine: string,
                javaMajor: string, javaVersion: string, javaVersionFormatted: string,
                gcVer: string, fileExt: string)
    requires GetVendor(Some(vendor)) == Some(Bell)
    ensures VendorFormat(Some(vendor), arch, platform, gcEngine, javaMajor, javaVersion, javaVersionFormatted, gcVer, fileExt) ==
            Some("https://download.bell-sw.com/java/" + javaVersion + "/bellsoft-jdk" + javaVersion + "-" +
                 platform + "-" + arch + "." + fileExt)
  {
    BellFill(javaVersion, platform, arch, fileExt);
    var t4 := "." + fileExt + "";
    var t3 := "-" + arch + t4;
    var t2 := "-" + platform + t3;
    var u0 := "https://download.bell-sw.com/java/" + javaVersion;
    ShiftPair(u0, "/bellsoft-jdk", javaVersion, t2);
    var u1 := u0 + "/bellsoft-jdk" + javaVersion;
    ShiftPair(u1, "-", platform, t3);
    var u2 := u1 + "-" + platform;
    ShiftPair(u2, "-", arch, t4);
    var u3 := u2 + "-" + arch;
    ShiftPair(u3, ".", fileExt, "");
    assert u3 + "." + fileExt + "" == u3 + "." + fileExt;
  }

  /** The ADOPT pattern filled with its eight arguments, nested to the right as Fill builds it. */
  lemma AdoptChain(javaMajor: string, javaVersion: string, arch: string, platform: string, gcEngine: string,
                   javaVersionFormatted: string, fileExt: string)
    ensures Fill(Pattern(Adopt), [javaMajor, javaVersion, javaMajor, arch, platform, gcEngine, javaVersionFormatted, fileExt]) ==
            Some("https://github.com/adoptium/temurin" + javaMajor + ("-binaries/releases/download/jdk-" + javaVersion +
                 ("/OpenJDK" + javaMajor + ("U-jdk_" + arch + ("_" + platform + ("_" + gcEngine +
                 ("_" + javaVersionFormatted + ("." + fileExt + ""))))))))
  {
    FillEight(Pattern(Adopt), [javaMajor, javaVersion, javaMajor, arch, platform, gcEngine, javaVersionFormatted, fileExt]);
  }

  /** The ADOPT pattern filled with its eight arguments. */
  lemma AdoptFill(javaMajor: string, javaVersion: string, arch: string, platform: string, gcEngine: string,
                  javaVersionFormatted: string, fileExt: string)
    ensures Fill(Pattern(Adopt), [javaMajor, javaVersion, javaMajor, arch, platform, gcEngine, javaVersionFormatted, fileExt]) ==
            Some("https://github.com/adoptium/temurin" + javaMajor + "-binaries/releases/download/jdk-" + javaVersion +
                 "/OpenJDK" + javaMajor + "U-jdk_" + arch + "_" + platform + "_" + gcEngine + "_" +
                 javaVersionFormatted + "." + fileExt)
  {
    AdoptChain(javaMajor, javaVersion, arch, platform, gcEngine, javaVersionFormatted, fileExt);
    var t7 := "." + fileExt + "";
    var t6 := "_" + javaVersionFormatted + t7;
    var t5 := "_" + gcEngine + t6;
    var t4 := "_" + platform + t5;
    var t3 := "U-jdk_" + arch + t4;
    var t2 := "/OpenJDK" + javaMajor + t3;
    var u0 := "https://github.com/adoptium/temurin" + javaMajor;
    ShiftPair(u0, "-binaries/releases/download/jdk-", javaVersion, t2);
    var u1 := u0 + "-binaries/releases/download/jdk-" + javaVersion;
    ShiftPair(u1, "/OpenJDK", javaMajor, t3);
    var u2 := u1 + "/OpenJDK" + javaMajor;
    ShiftPair(u2, "U-jdk_", arch, t4);
    var u3 := u2 + "U-jdk_" + arch;
    ShiftPair(u3, "_", platform, t5);
    var u4 := u3 + "_" + platform;
    ShiftPair(u4, "_", gcEngine, t6);
    var u5 := u4 + "_" + gcEngine;
    ShiftPair(u5, "_", javaVersionFormatted, t7);
    var u6 := u5 + "_" + javaVersionFormatted;
    ShiftPair(u6, ".", fileExt, "");
    assert u6 + "." + fileExt + "" == u6 + "." + fileExt;
  }

  /** An ADOPT URL: the major version fills the first and the third placeholder. */
  lemma AdoptUrl(vendor: string, arch: string, platform: string, gcEngine: string,
                 javaMajor: string, javaVersion: string, javaVersionFormatted: string,
                 gcVer: string, fileExt: string)
    requires GetVendor(Some(vendor)) == Some(Adopt)
    ensures VendorFormat(Some(vendor), arch, platform, gcEngine, javaMajor, javaVersion, javaVersionFormatted, gcVer, fileExt) ==
            Some("https://github.com/adoptium/temurin" + javaMajor + "-binaries/releases/download/jdk-" + javaVersion +
                 "/OpenJDK" + javaMajor + "U-jdk_" + arch + "_" + platform + "_" + gcEngine + "_" +
                 javaVersionFormatted + "." + fileExt)
  {
    AdoptFill(javaMajor, javaVersion, arch, platform, gcEngine, javaVersionFormatted, fileExt);
  }

  /** The SEMERU pattern filled with its ten arguments, nested to the right as Fill builds it. */
  lemma SemeruChain(javaMajor: string, javaVersion: string, gcEngine: string, gcVer: string, arch: string,
                    platform: string, javaVersionFormatted: string, fileExt: string)
    ensures Fill(Pattern(Semeru), [javaMajor, javaVersion, gcEngine, gcVer, arch, platform, javaVersionFormatted, gcEngine, gcVer, fileExt]) ==
            Some("https://github.com/ibmruntimes/semeru" + javaMajor +
                 ("-binaries/releases/download/jdk-" + javaVersion + ("_" + gcEngine + ("-" + gcVer +
                 ("/ibm-semeru-open-jdk_" + arch + ("_" + platform + ("_" + javaVersionFormatted +
                 ("_" + gcEngine + ("-" + gcVer + ("." + fileExt + ""))))))))))
  {
    FillTen(Pattern(Semeru), [javaMajor, javaVersion, gcEngine, gcVer, arch, platform, javaVersionFormatted, gcEngine, gcVer, fileExt]);
  }

  /** The SEMERU pattern filled with its ten arguments. */
  lemma SemeruFill(javaMajor: string, javaVersion: string, gcEngine: string, gcVer: string, arch: string,
                   platform: string, javaVersionFormatted: string, fileExt: string)
    ensures Fill(Pattern(Semeru), [javaMajor, javaVersion, gcEngine, gcVer, arch, platform, javaVersionFormatted, gcEngine, gcVer, fileExt]) ==
            Some("https://github.com/ibmruntimes/semeru" + javaMajor + "-binaries/releases/download/jdk-" + javaVersion +
                 "_" + gcEngine + "-" + gcVer + "/ibm-semeru-open-jdk_" + arch + "_" + platform + "_" +
                 javaVersionFormatted + "_" + gcEngine + "-" + gcVer + "." + fileExt)
  {
    SemeruChain(javaMajor, javaVersion, gcEngine, gcVer, arch, platform, javaVersionFormatted, fileExt);
    var t9 := "." + fileExt + "";
    var t8 := "-" + gcVer + t9;
    var t7 := "_" + gcEngine + t8;
    var t6 := "_" + javaVersionFormatted + t7;
    var t5 := "_" + platform + t6;
    var t4 := "/ibm-semeru-open-jdk_" + arch + t5;
    var t3 := "-" + gcVer + t4;
    var t2 := "_" + gcEngine + t3;
    var u0 := "https://github.com/ibmruntimes/semeru" + javaMajor;
    ShiftPair(u0, "-binaries/releases/download/jdk-", javaVersion, t2);
    var u1 := u0 + "-binaries/releases/download/jdk-" + javaVersion;
    ShiftPair(u1, "_", gcEngine, t3);
    var u2 := u1 + "_" + gcEngine;
    ShiftPair(u2, "-", gcVer, t4);
    var u3 := u2 + "-" + gcVer;
    ShiftPair(u3, "/ibm-semeru-open-jdk_", arch, t5);
    var u4 := u3 + "/ibm-semeru-open-jdk_" + arch;
    ShiftPair(u4, "_", platform, t6);
    var u5 := u4 + "_" + platform;
    ShiftPair(u5, "_", javaVersionFormatted, t7);
    var u6 := u5 + "_" + javaVersionFormatted;
    ShiftPair(u6, "_", gcEngine, t8);
    var u7 := u6 + "_" + gcEngine;
    ShiftPair(u7, "-", gcVer, t9);
    var u8 := u7 + "-" + gcVer;
    ShiftPair(u8, ".", fileExt, "");
    assert u8 + "." + fileExt + "" == u8 + "." + fileExt;
  }

  /** A SEMERU URL: the GC engine and its version appear twice, in the tag and in the file name. */
  lemma SemeruUrl(vendor: string, arch: string, platform: string, gcEngine: string,
                  javaMajor: string, javaVersion: string, javaVersionFormatted: string,
                  gcVer: string, fileExt: string)
    requires GetVendor(Some(vendor)) == Some(Semeru)
    ensures VendorFormat(Some(vendor), arch, platform, gcEngine, javaMajor, javaVersion, javaVersionFormatted, gcVer, fileExt) ==
            Some("https://github.com/ibmruntimes/semeru" + javaMajor + "-binaries/releases/download/jdk-" + javaVersion +
                 "_" + gcEngine + "-" + gcVer + "/ibm-semeru-open-jdk_" + arch + "_" + platform + "_" +
                 javaVersionFormatted + "_" + gcEngine + "-" + gcVer + "." + fileExt)
  {
    SemeruFill(javaMajor, javaVersion, gcEngine, gcVer, arch, platform, javaVersionFormatted, fileExt);
  }

  /** DEFAULT_VENDOR, which the warning for an unmatched vendor names. */
  const DefaultVendor := Adopt

  /** An unknown vendor makes format fail, although a default vendor is declared and announced. */
  lemma UnknownVendorFails(arch: string, platform: string, gcEngine: string, javaMajor: string, javaVersion: string,
                           javaVersionFormatted: string, gcVer: string, fileExt: string)
    ensures VendorFormat(Some("ZULU"), arch, platform, gcEngine, javaMajor, javaVersion, javaVersionFormatted, gcVer, fileExt).None?
  {
    assert Upper("ZULU") == "ZULU";
    assert !StartsWith("ZULU", Name(Adopt)) && !StartsWith("ZULU", Name(Semeru)) && !StartsWith("ZULU", Name(Bell));
  }

  /** format with the fallback the warning announces: an unmatched or null vendor uses DEFAULT_VENDOR. */
  function VendorFormatWithDefault(vendor: Option<string>, arch: string, platform: string, gcEngine: string,
                                   javaMajor: string, javaVersion: string, javaVersionFormatted: string,
                                   gcVer: string, fileExt: string): (r: string)
    ensures GetVendor(vendor).Some? ==>
              Some(r) == VendorFormat(vendor, arch, platform, gcEngine, javaMajor, javaVersion, javaVersionFormatted, gcVer, fileExt)
    ensures GetVendor(vendor).None? ==>
              Some(r) == VendorFormat(Some(Name(DefaultVendor)), arch, platform, gcEngine, javaMajor, javaVersion, javaVersionFormatted, gcVer, fileExt)
  {
    var v := if GetVendor(vendor).Some? then vendor else Some(Name(DefaultVendor));
    assert Upper(Name(DefaultVendor)) == Name(DefaultVendor);
    VendorFormat(v, arch, platform, gcEngine, javaMajor, javaVersion, javaVersionFormatted, gcVer, fileExt).value
  }
}
