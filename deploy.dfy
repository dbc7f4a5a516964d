/**
 * DeployUtilities (src/qz/deploy/DeployUtilities.java): the path helpers,
 * the shortcut name and jar path a deployer keeps, the names of the two
 * shortcut kinds, and the autostart flag kept in a small file.
 *
 * The file system is abstracted: the two autostart files are fields whose
 * state is given, File.separator and the detected jar path are parameters.
 */
module Deploy {
  import opened JavaStrings

  /** The shortcut name used when none was set. */
  const DefaultShortcutName := "Java Shortcut"

  // ---------------------------------------------------------------------
  // Path helpers

  /** getParentDirectory(String): the text before the last separator, "" when there is none. */
  function ParentDirectory(filePath: string, separator: char): (r: string)
    ensures (forall j :: 0 <= j < |filePath| ==> filePath[j] != separator) ==> r == ""
    ensures (exists j :: 0 <= j < |filePath| && filePath[j] == separator) ==>
              |r| < |filePath| && filePath[..|r|] == r && filePath[|r|] == separator &&
              forall j :: |r| < j < |filePath| ==> filePath[j] != separator
  {
    var lastSlash := LastIndexOfChar(filePath, separator);
    if lastSlash < 0 then "" else filePath[..lastSlash]
  }

  /** The code for an encoded space. */
  const EncodedSpace := "%20"

  /** fixWhitespaces: every "%20" becomes a space. */
  function FixWhitespaces(filePath: string): (r: string)
    ensures |r| <= |filePath|
    ensures !Contains(filePath, EncodedSpace) ==> r == filePath
  {
    var r := Replace(filePath, EncodedSpace, " ");
    ReplaceShortens(filePath, EncodedSpace, " ");
    if !Contains(filePath, EncodedSpace) then
      ReplaceWithoutOccurrence(filePath, EncodedSpace, " ");
      r
    else r
  }

  /** Replacing by something no longer than the pattern never lengthens the text. */
  lemma {:induction false} ReplaceShortens(s: string, pat: string, rep: string)
    requires |pat| > 0 && |rep| <= |pat|
    ensures |Replace(s, pat, rep)| <= |s|
    decreases |s|
  {
    if |s| < |pat| {
    } else if s[..|pat|] == pat {
      ReplaceShortens(s[|pat|..], pat, rep);
    } else {
      ReplaceShortens(s[1..], pat, rep);
    }
  }

  /** A text with no occurrence of `pat` is left alone by Replace. */
  lemma {:induction false} ReplaceWithoutOccurrence(s: string, pat: string, rep: string)
    requires |pat| > 0
    requires forall i: nat :: !OccursAt(s, pat, i)
    ensures Replace(s, pat, rep) == s
    decreases |s|
  {
    if |s| >= |pat| {
      assert !OccursAt(s, pat, 0);
      forall i: nat
        ensures !OccursAt(s[1..], pat, i)
      {
        assert !OccursAt(s, pat, i + 1);
        if i + |pat| <= |s[1..]| {
          assert s[1..][i..i + |pat|] == s[i + 1..i + 1 + |pat|];
        }
      }
      ReplaceWithoutOccurrence(s[1..], pat, rep);
    }
  }

  /**
   * The first character of the fixed text, when it is not a space, was
   * copied from the first character of the input, and the rest is the
   * fixed rest of the input.
   */
  lemma FixedHead(t: string)
    requires FixWhitespaces(t) != [] && FixWhitespaces(t)[0] != ' '
    ensures t != [] && t[0] == FixWhitespaces(t)[0]
    ensures FixWhitespaces(t)[1..] == FixWhitespaces(t[1..])
  {
    if |t| < 3 {
      ReplaceWithoutOccurrence(t[1..], EncodedSpace, " ");
    }
  }

  /** A code in a text one character longer than `rest` that lies past its first character is a code in `rest`. */
  lemma NoCodeInTail(r: string, rest: string)
    requires r != [] && r[1..] == rest
    requires forall i: nat :: !OccursAt(rest, EncodedSpace, i)
    ensures forall i: nat :: 0 < i ==> !OccursAt(r, EncodedSpace, i)
  {
    forall i: nat | 0 < i
      ensures !OccursAt(r, EncodedSpace, i)
    {
      assert !OccursAt(rest, EncodedSpace, i - 1);
      if i + 3 <= |r| {
        assert r[i..i + 3] == rest[i - 1..i + 2];
      }
    }
  }

  /** The fixed text holds no "%20": spaces break every code, and copied characters never line up into one. */
  lemma {:induction false} FixedHasNoCode(s: string)
    ensures forall i: nat :: !OccursAt(FixWhitespaces(s), EncodedSpace, i)
    decreases |s|
  {
    var r := FixWhitespaces(s);
    if |s| < 3 {
    } else if s[..3] == EncodedSpace {
      var rest := FixWhitespaces(s[3..]);
      assert r == " " + rest;
      FixedHasNoCode(s[3..]);
      NoCodeInTail(r, rest);
      assert r[0] == ' ';
    } else {
      var rest := FixWhitespaces(s[1..]);
      assert r == [s[0]] + rest;
      FixedHasNoCode(s[1..]);
      NoCodeInTail(r, rest);
      if OccursAt(r, EncodedSpace, 0) {
        assert r[1] == '2' && r[2] == '0';
        assert rest[0] == '2' && rest[1] == '0';
        FixedHead(s[1..]);
        FixedHead(s[2..]);
      }
    }
  }

  /** The fixed text does not contain "%20". */
  lemma FixedContainsNoCode(s: string)
    ensures !Contains(FixWhitespaces(s), EncodedSpace)
  {
    FixedHasNoCode(s);
  }

  /** Fixing twice changes nothing more than fixing once. */
  lemma FixWhitespacesIdempotent(s: string)
    ensures FixWhitespaces(FixWhitespaces(s)) == FixWhitespaces(s)
  {
    FixedHasNoCode(s);
    ReplaceWithoutOccurrence(FixWhitespaces(s), EncodedSpace, " ");
  }

  /**
   * detectPropertiesPath: the override when one is given, else the
   * properties file beside the jar with "%20" fixed; None where the jar path
   * is unknown and getParentDirectory fails on null.
   */
  function PropertiesPath(override: Option<string>, jarPath: Option<string>, separator: char, propsFile: string): (r: Option<string>)
    ensures override.Some? ==> r == override
    ensures override.None? && jarPath.None? ==> r.None?
    ensures override.None? && jarPath.Some? ==>
              r == Some(FixWhitespaces(ParentDirectory(jarPath.value, separator) + [separator] + propsFile + ".properties"))
  {
    if override.Some? then override
    else if jarPath.None? then None
    else Some(FixWhitespaces(ParentDirectory(jarPath.value, separator) + [separator] + propsFile + ".properties"))
  }

  // ---------------------------------------------------------------------
  // Shortcut kinds

  /** ToggleType. */
  datatype ToggleType = Startup | Desktop

  /** The enum constant's name. */
  function EnumName(t: ToggleType): string {
    match t
    case Startup => "STARTUP"
    case Desktop => "DESKTOP"
  }

  /** ToggleType.getName and toString: the lower-case enum name. */
  function Name(t: ToggleType): (r: string)
    ensures t == Startup ==> r == "startup"
    ensures t == Desktop ==> r == "desktop"
  {
    Lower(EnumName(t))
  }

  // ---------------------------------------------------------------------
  // The autostart file

  /** An autostart file: absent, present but unreadable, or its lines. */
  datatype FileState = Missing | Unreadable | Lines(lines: seq<string>)

  /** What reading the flag gives: a value, an IOException, or the index error of an empty file. */
  datatype ReadResult = Value(text: string) | IoError | IndexError

  /** readStartupFile: the user's file, else the shared one, else "1"; the first line of the file read. */
  function ReadStartupFile(user: FileState, shared: FileState): (r: ReadResult)
    ensures user.Missing? && shared.Missing? ==> r == Value("1")
    ensures user.Lines? && user.lines != [] ==> r == Value(user.lines[0])
    ensures user.Unreadable? ==> r == IoError
    ensures user.Missing? && shared.Lines? && shared.lines != [] ==> r == Value(shared.lines[0])
    ensures user.Missing? && shared.Unreadable? ==> r == IoError
    ensures r.IndexError? <==> (user.Lines? && user.lines == []) || (user.Missing? && shared.Lines? && shared.lines == [])
  {
    var file := if user.Missing? then shared else user;
    match file
    case Missing => Value("1")
    case Unreadable => IoError
    case Lines(lines) => if |lines| == 0 then IndexError else Value(lines[0])
  }

  /**
   * isAutostart: the flag read is "1"; an IOException reads as false. The
   * index error is not caught: None.
   */
  function AutostartOf(user: FileState, shared: FileState): (r: Option<bool>)
    ensures user.Missing? && shared.Missing? ==> r == Some(true)
    ensures user.Unreadable? ==> r == Some(false)
    ensures user.Lines? && user.lines != [] ==> r == Some(user.lines[0] == "1")
    ensures user.Missing? && shared.Unreadable? ==> r == Some(false)
    ensures user.Missing? && shared.Lines? && shared.lines != [] ==> r == Some(shared.lines[0] == "1")
    ensures r.None? <==> (user.Lines? && user.lines == []) || (user.Missing? && shared.Lines? && shared.lines == [])
  {
    match ReadStartupFile(user, shared)
    case Value(text) => Some(text == "1")
    case IoError => Some(false)
    case IndexError => None
  }

  /** The flag written for a setting. */
  function Mode(autostart: bool): string {
    if autostart then "1" else "0"
  }

  /** The deployer: the settings it keeps and the autostart files it reads and writes. */
  class DeployUtilities {
    var jarPath: Option<string>
    var shortcutName: Option<string>
    /** The autostart file in the user's data directory. */
    var userAutostart: FileState
    /** The autostart file in the shared data directory. */
    var sharedAutostart: FileState

    constructor (userAutostart: FileState, sharedAutostart: FileState)
      ensures jarPath.None? && shortcutName.None?
      ensures this.userAutostart == userAutostart && this.sharedAutostart == sharedAutostart
    {
      jarPath := None;
      shortcutName := None;
      this.userAutostart := userAutostart;
      this.sharedAutostart := sharedAutostart;
    }

    /** getShortcutName: the name set, or the default. */
    function ShortcutName(): (r: string)
      reads this
      ensures shortcutName.None? ==> r == DefaultShortcutName
      ensures shortcutName.Some? ==> r == shortcutName.value
    {
      if shortcutName.None? then DefaultShortcutName else shortcutName.value
    }

    /** setShortcutName: a null name is ignored. */
    method SetShortcutName(name: Option<string>)
      modifies this
      ensures name.Some? ==> shortcutName == name && ShortcutName() == name.value
      ensures name.None? ==> shortcutName == old(shortcutName)
      ensures jarPath == old(jarPath) && userAutostart == old(userAutostart) && sharedAutostart == old(sharedAutostart)
    {
      if name.Some? {
        shortcutName := name;
      }
    }

    /** getJarPath: the path detected on the first call is kept; `detected` is what detection gives now. */
    method JarPath(detected: Option<string>) returns (r: Option<string>)
      modifies this
      ensures old(jarPath).Some? ==> r == old(jarPath)
      ensures old(jarPath).None? ==> r == detected
      ensures jarPath == r
      ensures shortcutName == old(shortcutName) && userAutostart == old(userAutostart) && sharedAutostart == old(sharedAutostart)
    {
      if jarPath.None? {
        jarPath := detected;
      }
      r := jarPath;
    }

    /** getParentDirectory(): the jar's directory; None where the jar path is null. */
    method ParentDirectoryOfJar(detected: Option<string>, separator: char) returns (r: Option<string>)
      modifies this
      ensures jarPath == (if old(jarPath).Some? then old(jarPath) else detected)
      ensures jarPath.None? ==> r.None?
      ensures jarPath.Some? ==> r == Some(ParentDirectory(jarPath.value, separator))
      ensures shortcutName == old(shortcutName) && userAutostart == old(userAutostart) && sharedAutostart == old(sharedAutostart)
    {
      var path := JarPath(detected);
      if path.None? {
        return None;
      }
      r := Some(ParentDirectory(path.value, separator));
    }

    /** isAutostart: reads the files and changes nothing. */
    function IsAutostart(): (r: Option<bool>)
      reads this
      ensures userAutostart.Missing? && sharedAutostart.Missing? ==> r == Some(true)
      ensures userAutostart.Unreadable? ==> r == Some(false)
      ensures userAutostart.Lines? && userAutostart.lines != [] ==> r == Some(userAutostart.lines[0] == "1")
      ensures userAutostart.Missing? && sharedAutostart.Unreadable? ==> r == Some(false)
      ensures userAutostart.Missing? && sharedAutostart.Lines? && sharedAutostart.lines != [] ==>
                r == Some(sharedAutostart.lines[0] == "1")
      ensures r.None? <==> ReadStartupFile(userAutostart, sharedAutostart).IndexError?
    {
      AutostartOf(userAutostart, sharedAutostart)
    }

    /**
     * setAutostart: writes "1" or "0" to the user's file, then reports
     * whether reading the flag back gives the value written; an IOException,
     * from the write or from the read-back, reports false. `writable` says
     * whether the write goes through and `readable` whether the written file
     * can then be read; a written file that cannot be read is Unreadable.
     */
    method SetAutostart(autostart: bool, writable: bool, readable: bool) returns (ok: Option<bool>)
      modifies this
      ensures ok == Some(writable && readable)
      ensures writable && readable ==> userAutostart == Lines([Mode(autostart)]) && IsAutostart() == Some(autostart)
      ensures writable && !readable ==> userAutostart == Unreadable && IsAutostart() == Some(false)
      ensures !writable ==> userAutostart == old(userAutostart)
      ensures sharedAutostart == old(sharedAutostart) && jarPath == old(jarPath) && shortcutName == old(shortcutName)
    {
      var mode := Mode(autostart);
      if !writable {
        return Some(false);
      }
      userAutostart := if readable then Lines([mode]) else Unreadable;
      var readBack := ReadStartupFile(userAutostart, sharedAutostart);
      match readBack
      case Value(text) => ok := Some(text == mode);
      case IoError => ok := Some(false);
      case IndexError => ok := None;
    }
  }

  /**
   * Without a user file the shared file decides, exactly as the user file
   * would have: moving the flag from the shared directory to the user's
   * changes nothing.
   */
  lemma {:induction false} SharedFileStandsIn(shared: FileState)
    requires !shared.Missing?
    ensures AutostartOf(Missing, shared) == AutostartOf(shared, Missing)
  {
    assert ReadStartupFile(Missing, shared) == ReadStartupFile(shared, Missing);
  }

  /** The user's file, when present, decides alone: the shared file is not read. */
  lemma UserFileDecides(user: FileState, shared: FileState, other: FileState)
    requires !user.Missing?
    ensures AutostartOf(user, shared) == AutostartOf(user, other)
  {
  }
}
