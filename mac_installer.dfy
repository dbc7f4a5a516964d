/**
 * MacInstaller (src/qz/installer/MacInstaller.java): where the application
 * bundle is, the package name derived from the about URL, the install
 * destination and the field map of the launch agent that starts the tray
 * at login.
 *
 * ABOUT_TITLE, ABOUT_URL and PROPS_FILE come from a constants class that is
 * not part of this model; they are parameters. The jar path is a parameter.
 */
module MacInstall {
  import opened JavaStrings

  /** The marker of a path inside an application bundle. */
  const BundleMarker := ".app/"

  /**
   * getAppPath as written: when ".app/" occurs at an index above 0, the text
   * up to one character before it; otherwise the jar path itself.
   */
  function AppPathAsWritten(target: string): (r: string)
    ensures |r| <= |target| && target[..|r|] == r
    ensures IndexOf(target, BundleMarker) > 0 ==> |r| == IndexOf(target, BundleMarker) - 1
    ensures IndexOf(target, BundleMarker) <= 0 ==> r == target
  {
    var appIndex := IndexOf(target, BundleMarker);
    if appIndex > 0 then target[..appIndex - 1] else target
  }

  /** getAppPath as intended: the bundle directory, up to and including ".app". */
  function AppPath(target: string): (r: string)
    ensures |r| <= |target| && target[..|r|] == r
    ensures IndexOf(target, BundleMarker) > 0 ==>
              EndsWith(r, ".app") && OccursAt(target, BundleMarker, |r| - 4) &&
              forall j: nat :: j < |r| - 4 ==> !OccursAt(target, BundleMarker, j)
    ensures IndexOf(target, BundleMarker) <= 0 ==> r == target
  {
    var appIndex := IndexOf(target, BundleMarker);
    if appIndex > 0 then
      assert target[appIndex..appIndex + 4] == target[appIndex..appIndex + 5][..4];
      target[..appIndex + 4]
    else target
  }

  /**
   * The path as written is the intended one less its last five characters:
   * the last character of the bundle's name and ".app".
   */
  lemma AppPathAsWrittenDropsFive(target: string)
    requires IndexOf(target, BundleMarker) > 0
    ensures var i := IndexOf(target, BundleMarker);
            AppPath(target) == AppPathAsWritten(target) + target[i - 1..i + 4] &&
            target[i..i + 4] == ".app"
  {
    var i := IndexOf(target, BundleMarker);
    assert target[i..i + 4] == target[i..i + 5][..4];
  }

  /** A jar inside "/QZ.app/": the path as written is "/Q", the bundle is "/QZ.app". */
  lemma AppPathAsWrittenExample()
    ensures AppPathAsWritten("/QZ.app/x") == "/Q"
    ensures AppPath("/QZ.app/x") == "/QZ.app"
  {
    var t := "/QZ.app/x";
    assert OccursAt(t, BundleMarker, 3);
    assert BundleMarker[0] == '.';
    assert t[0..5][0] == '/' && t[1..6][0] == 'Q' && t[2..7][0] == 'Z';
    assert IndexOf(t, BundleMarker) == 3;
  }

  /**
   * getPackageName: the last two \W-separated parts of the about URL in
   * reverse order, then PROPS_FILE; "local." + PROPS_FILE when the URL
   * splits into fewer than two parts.
   */
  function PackageName(aboutUrl: string, propsFile: string): (r: string)
    ensures EndsWith(r, "." + propsFile)
    ensures var parts := Split(NonWord, aboutUrl);
            |parts| >= 2 ==> r == parts[|parts| - 1] + "." + parts[|parts| - 2] + "." + propsFile
    ensures |Split(NonWord, aboutUrl)| < 2 <==> r == "local." + propsFile
  {
    var parts := Split(NonWord, aboutUrl);
    if |parts| >= 2 then
      var r := parts[|parts| - 1] + "." + parts[|parts| - 2] + "." + propsFile;
      NotFallback(parts[|parts| - 1], parts[|parts| - 2], propsFile);
      assert r[|r| - |propsFile| - 1..] == "." + propsFile;
      r
    else
      var r := "local." + propsFile;
      assert r[|r| - |propsFile| - 1..] == "." + propsFile;
      r
  }

  /** A name built from two parts is never the fallback name. */
  lemma NotFallback(last: string, previous: string, propsFile: string)
    ensures last + "." + previous + "." + propsFile != "local." + propsFile
  {
    var r := last + "." + previous + "." + propsFile;
    var fallback := "local." + propsFile;
    if |last| + |previous| == 4 {
      assert r[|last|] == '.' && fallback[|last|] != '.';
    } else {
      assert |r| != |fallback|;
    }
  }

  /** The installer: the bundle's destination, set once it is chosen. */
  class MacInstaller {
    /** ABOUT_TITLE. */
    const aboutTitle: string
    /** PACKAGE_NAME, computed once from ABOUT_URL and PROPS_FILE. */
    const packageName: string
    var destination: string

    constructor (aboutTitle: string, aboutUrl: string, propsFile: string)
      ensures this.aboutTitle == aboutTitle
      ensures packageName == PackageName(aboutUrl, propsFile)
      ensures destination == "/Applications/" + aboutTitle + ".app"
    {
      this.aboutTitle := aboutTitle;
      packageName := PackageName(aboutUrl, propsFile);
      destination := "/Applications/" + aboutTitle + ".app";
    }

    /** getDestination. */
    function Destination(): string
      reads this
    {
      destination
    }

    /** setDestination: the next getDestination returns it. */
    method SetDestination(destination: string)
      modifies this
      ensures Destination() == destination
    {
      this.destination := destination;
    }

    /**
     * addStartupEntry: the launch agent's file and the fields filled into
     * its template; writing the file is not part of this model.
     */
    method StartupEntry() returns (dest: string, fieldMap: map<string, string>)
      ensures dest == "/Library/LaunchAgents/" + packageName + ".plist"
      ensures fieldMap.Keys == {"%PACKAGE_NAME%", "%COMMAND%", "%PARAM%"}
      ensures fieldMap["%PACKAGE_NAME%"] == packageName
      ensures fieldMap["%COMMAND%"] == destination + "/Contents/MacOS/" + aboutTitle
      ensures fieldMap["%PARAM%"] == "--honorautostart"
    {
      dest := "/Library/LaunchAgents/" + packageName + ".plist";
      fieldMap := map[];
      fieldMap := fieldMap["%PACKAGE_NAME%" := packageName];
      fieldMap := fieldMap["%COMMAND%" := destination + "/Contents/MacOS/" + aboutTitle];
      fieldMap := fieldMap["%PARAM%" := "--honorautostart"];
    }
  }
}
