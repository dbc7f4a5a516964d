# QZ Tray printer status and helper logic, in Dafny

This project models the parts of QZ Tray that turn what the operating
system reports about printers and print jobs into status events. It also
models the small parsers and string helpers around them. Each Java source
file of the core has its own module:

- `WmiStatusThread` (wmi_thread.dfy) is the per-printer Windows tracker, as a
  class. It keeps the printer's status and attribute words, the last
  combined status, the OK flag, the held-jobs flag and three job tables:
  document names, pending status codes and last reported codes. The tracker
  ingests notification fields (decodeJobStatus), combines the offline
  attribute into the status word (combineStatus), and flushes pending job
  codes (sendPendingStatuses). Flushing reports only newly set bits, waits
  for placeholder document names, drops the double-"printed" case, and
  forgets finished jobs. What the tracker publishes is a sequence field of
  events.
- `PrinterStatusCodec` (printer_status.dfy) holds the bitmask decoder
  getFromWMICode (an array filled back to front), the CUPS reason decoder
  getFromCupsString, the constructors and toString.
- `StatusRecord` (status.dfy) is the immutable status record, with its two
  constructors, sanitizePrinterName and toString.
- `PrinterMatcher` (matcher.dfy) is matchPrinter's search loop and its
  precedence (exact, then begins-with, then contains), plus findPrinterName.
- `CupsPrinters` (cups_list.dfy) contains:
  - putAll, as a class over the printer map: it splits `lpstat -l -p`
    output into blocks, reads each block's id, description and interface,
    and pairs each block with a print service from a shrinking list;
  - fillAttributes: it reads resolution and driver lines from a PPD file.
- `Deploy` (deploy.dfy) has the DeployUtilities path helpers, the shortcut
  name, the lazily cached jar path, the toggle names and the autostart
  flag file.
- `MacInstall` (mac_installer.dfy) has getAppPath, getPackageName, the
  install destination and the launch-agent field map.
- `VendorUrl` (vendor_url.dfy) has the JDK vendor lookup and URL format.
- `JavaStrings` and `Bits32` are helper modules. They hold the Java library
  behaviour the core relies on: String.split, trim, indexOf, replace, the
  ASCII case mapping, Integer.parseInt, Integer.bitCount, and the signed
  `(x & m) > 0` test on 32-bit words.

Java `int` status words are `bv32`. A Java `null` is `None`, and so is an
uncaught exception where the model has to give a result.

The code differs from a plain reading of its intent in several places, and
the model follows the code:

- getFromCupsString removes every `-error`, `-warning` and `-report`, not
  only a trailing one.
- The last reported job code is replaced by each new code, not OR-ed with it.
- A job with no document name is flushed like any other.
- With held jobs, a PRINTING bit makes even a DELETED code non-final.
- In matchPrinter, the last begins-with or contains candidate wins.
- In matchPrinter, a legacy-name exact match does not end the scan.
- An empty CUPS reason is decoded, not treated as null.

## Model

| member | source | states |
|---|---|---|
| WmiStatusThread.HoldsJobsSigned | src/qz/printer/status/WmiPrinterStatusThread.java:73 | The constructor's signed `> 0` test of KEEPPRINTEDJOBS agrees with decodeJobStatus's `!= 0` test, so both compute the same held-jobs flag. |
| WmiStatusThread.CombineStatus | src/qz/printer/status/WmiPrinterStatusThread.java:202-205 | Without PRINTER_ATTRIBUTE_WORK_OFFLINE in the attributes, the status field is returned unchanged. The lemmas below show that no status bit is cleared, that the ATTRIBUTE_WORK_OFFLINE code is added when the printer works offline, and that no other bit is set. |
| WmiStatusThread.CombineKeepsStatus | src/qz/printer/status/WmiPrinterStatusThread.java:202-205 | combineStatus never clears a bit of the status field. |
| WmiStatusThread.CombineOnline | src/qz/printer/status/WmiPrinterStatusThread.java:202-205 | Without PRINTER_ATTRIBUTE_WORK_OFFLINE in the attributes, the combined status is the status field unchanged. |
| WmiStatusThread.CombineAddsWorkOffline | src/qz/printer/status/WmiPrinterStatusThread.java:202-205 | With the work-offline attribute, the combined status carries the ATTRIBUTE_WORK_OFFLINE code. |
| WmiStatusThread.CombineAddsNothingElse | src/qz/printer/status/WmiPrinterStatusThread.java:202-205 | The combined status has no bit outside the status field and the ATTRIBUTE_WORK_OFFLINE code. |
| WmiStatusThread.PrinterEvents | src/qz/printer/status/WmiPrinterStatusThread.java:164-178 | A printer change publishes nothing iff the combined status is unchanged; otherwise it publishes the decoded statuses first. A synthetic OK follows iff the new status has no not-OK bit, the printer was not OK before, and the status is not 0. There are two events exactly when the OK is among them, and then it is the second. |
| WmiStatusThread.AppendCode | src/qz/printer/status/WmiPrinterStatusThread.java:186-190 | A status field appends its code to the job's pending list (an empty list if there was none); every other job's list is unchanged. |
| WmiStatusThread.AppendKeepsWellFormed | src/qz/printer/status/WmiPrinterStatusThread.java:186-190 | Appending keeps every pending list non-empty. |
| WmiStatusThread.ReportNewBits | src/qz/printer/status/WmiPrinterStatusThread.java:224-233 | The loop over a job's codes publishes exactly Reports. Each code reports only its bits missing from the code before it (the stored last code for the first), and nothing when no bit is new. |
| WmiStatusThread.ReportsAreForTheJob | src/qz/printer/status/WmiPrinterStatusThread.java:224-233 | There is at most one report per code, each for this job and its document name, with a nonzero bit set. |
| WmiStatusThread.RepeatReportsNothing | src/qz/printer/status/WmiPrinterStatusThread.java:228-231 | A code equal to the last one reports nothing. |
| WmiStatusThread.ReportsAgainstLastCodeOnly | src/qz/printer/status/WmiPrinterStatusThread.java:225-232 | Codes 1, 2, 1 report 1, 2 and 1 again. The last code is replaced by each new code, not accumulated. |
| WmiStatusThread.IsFinalCode | src/qz/printer/status/WmiPrinterStatusThread.java:237-244 | Without held jobs, a code is final iff it has DELETED. With held jobs, a code with PRINTING is never final; otherwise it is final iff it has DELETED or PRINTED. |
| WmiStatusThread.FlushJob | src/qz/printer/status/WmiPrinterStatusThread.java:209-249 | A job waiting for a real document name is left alone. Any other job leaves the pending table. The double-"printed" case also drops the job's last code and publishes nothing. Other jobs' entries are untouched. |
| WmiStatusThread.FlushedJobState | src/qz/printer/status/WmiPrinterStatusThread.java:224-249 | After a flushed job: if its last code is final, its document name and last code are gone; otherwise its last code is that code. |
| WmiStatusThread.FlushDoublePrinted | src/qz/printer/status/WmiPrinterStatusThread.java:217-222 | The double-"printed" job is dropped from the pending and last-code tables, and nothing is published. |
| WmiStatusThread.SendAll | src/qz/printer/status/WmiPrinterStatusThread.java:207-251 | A pass over the pending jobs keeps every pending list non-empty and adds no pending job. |
| WmiStatusThread.SendAllSkipsAbsent | src/qz/printer/status/WmiPrinterStatusThread.java:208 | A pass over ids none of which is pending changes nothing and publishes nothing. |
| WmiStatusThread.SendAllSettles | src/qz/printer/status/WmiPrinterStatusThread.java:209-234 | After a pass, the only jobs of the pass still pending are those waiting for a document name. |
| WmiStatusThread.SettledPassIsQuiet | src/qz/printer/status/WmiPrinterStatusThread.java:214-215 | When only waiting jobs are pending, a pass changes nothing and publishes nothing. |
| WmiStatusThread.SecondPassIsQuiet | src/qz/printer/status/WmiPrinterStatusThread.java:208-234 | A second pass with no new notifications publishes nothing and changes nothing. |
| WmiStatusThread.WmiPrinterStatusThread.constructor | src/qz/printer/status/WmiPrinterStatusThread.java:70-76 | The tracker starts with the given status and attributes, their combined status, not OK, empty job tables and nothing published. |
| WmiStatusThread.WmiPrinterStatusThread.DecodeJobStatus | src/qz/printer/status/WmiPrinterStatusThread.java:153-192 | A printer field updates the status or attribute word (and the held-jobs flag), then publishes as PrinterEvents says and moves the OK flag and last status. A document field overwrites the job's name. A status field appends to the job's pending codes. Last codes never change here. |
| WmiStatusThread.WmiPrinterStatusThread.ChangePrinter | src/qz/printer/status/WmiPrinterStatusThread.java:154-178 | The printer branch of decodeJobStatus. It leaves the job tables unchanged. |
| WmiStatusThread.WmiPrinterStatusThread.PublishPrinterStatus | src/qz/printer/status/WmiPrinterStatusThread.java:164-178 | The comparison with the last status and the publication after a printer field. |
| WmiStatusThread.WmiPrinterStatusThread.SendPendingStatuses | src/qz/printer/status/WmiPrinterStatusThread.java:207-251 | Iterating the pending jobs in any order that lists each once, the tables become those of SendAll and the publications are appended. The printer state is unchanged. |
| WmiStatusThread.WmiPrinterStatusThread.FlushInOrder | src/qz/printer/status/WmiPrinterStatusThread.java:209-250 | The iterator loop: after each job, the state is SendAll over the jobs visited so far. |
| WmiStatusThread.WmiPrinterStatusThread.FlushPending | src/qz/printer/status/WmiPrinterStatusThread.java:210-249 | One iteration of the loop is FlushJob on the tracker's tables. |
| WmiStatusThread.WmiPrinterStatusThread.DropDoublePrinted | src/qz/printer/status/WmiPrinterStatusThread.java:217-222 | The double-"printed" workaround, as FlushJob states it. |
| WmiStatusThread.WmiPrinterStatusThread.ReportAndSettle | src/qz/printer/status/WmiPrinterStatusThread.java:224-249 | A job's codes are reported, then it is removed and, if final, forgotten. |
| WmiStatusThread.WmiPrinterStatusThread.ReportPending | src/qz/printer/status/WmiPrinterStatusThread.java:224-234 | Reports the job's new bits, stores its last code and removes it from the pending table. |
| WmiStatusThread.WmiPrinterStatusThread.ForgetIfFinal | src/qz/printer/status/WmiPrinterStatusThread.java:237-249 | A final code removes the job's document name and last code; otherwise nothing changes. |
| PrinterStatusCodec.Create | src/qz/printer/status/PrinterStatus.java:21-29 | The two-argument constructor keeps the type and printer name, with an empty CUPS string. |
| PrinterStatusCodec.GetFromWmiCode | src/qz/printer/status/PrinterStatus.java:31-47 | For a code without bit 31, the array is one OK status for 0. Otherwise it has one status per set bit, looked up by that bit's mask and filled from the end. |
| PrinterStatusCodec.WmiStatusesHighestFirst | src/qz/printer/status/PrinterStatus.java:36-45 | Entry i is the status of the i-th set bit counted from the top, so the highest set bit comes first. |
| PrinterStatusCodec.WmiStatusesCount | src/qz/printer/status/PrinterStatus.java:36-37 | A nonzero code yields exactly bitCount(code) statuses, at least one. |
| PrinterStatusCodec.WmiStatusesEndWithLowest | src/qz/printer/status/PrinterStatus.java:38-45 | The lowest set bit's status is the last entry. |
| PrinterStatusCodec.WmiStatusOfSetBit | src/qz/printer/status/PrinterStatus.java:40-43 | Every set bit's status appears in the result. |
| PrinterStatusCodec.SignBitNeverCounted | src/qz/printer/status/PrinterStatus.java:36-45 | For Integer.MIN_VALUE, bitCount is 1, but `(mask & code) > 0` fails for every mask, so the loop never ends. |
| PrinterStatusCodec.GetFromWmiCodeAllBits | src/qz/printer/status/PrinterStatus.java:31-47 | With the bit test `!= 0`, the same loop returns one status per set bit for every 32-bit code. |
| PrinterStatusCodec.GetFromCupsString | src/qz/printer/status/PrinterStatus.java:49-58 | The result is null iff the reason is null. The CUPS string is the normalised reason (lower-cased, qualifiers removed). The type is the table's entry for that reason, or UNKNOWN_STATUS when there is none. The printer name is kept. |
| PrinterStatusCodec.StripQualifiers | src/qz/printer/status/PrinterStatus.java:52 | The result is never longer than the reason. What the single pass deletes is stated by the three lemmas below. |
| PrinterStatusCodec.StripSplitsBeforeDash | src/qz/printer/status/PrinterStatus.java:52 | No qualifier runs across a dash after its first character. So the text before a dash and the text from that dash on are stripped independently and the results joined. |
| PrinterStatusCodec.StripsEveryQualifier | src/qz/printer/status/PrinterStatus.java:52 | Every `-error`, `-warning` or `-report` is deleted, whatever text stands before and after it. The result is the stripped text before it joined to the stripped text after it. This covers `media-jam-error` and reasons with several qualifiers. |
| PrinterStatusCodec.StripsQualifierAnywhere | src/qz/printer/status/PrinterStatus.java:52 | Between two dash-free texts, a `-error`, `-warning` or `-report` is removed and the two texts are joined. |
| PrinterStatusCodec.SinglePassJoinsAroundQualifier | src/qz/printer/status/PrinterStatus.java:52 | After a plain dash, a qualifier is removed and the text around it is joined. |
| PrinterStatusCodec.CupsReasonCaseInsensitive | src/qz/printer/status/PrinterStatus.java:52-57 | Decoding a reason or its lower-cased form gives the same status. |
| PrinterStatusCodec.ToString | src/qz/printer/status/PrinterStatus.java:71-77 | There is no text (NullPointerException) iff the type is null. Otherwise the text is the header, with ", CUPS string " and the string appended iff the CUPS string is non-empty. |
| StatusRecord.PrinterEvent | src/qz/printer/status/Status.java:24-30 | A printer status has event type PRINTER, job id -1 and no job name. Code, printer and raw code are kept as given, as the getters return them. |
| StatusRecord.JobEvent | src/qz/printer/status/Status.java:32-39 | A job status has event type JOB. It keeps the job id exactly as given, with no positivity check, and the job name. |
| StatusRecord.SanitizePrinterName | src/qz/printer/status/Status.java:41-53 | Off macOS, the raw printer name. On macOS, the service name of the printer matchPrinter finds, or the raw name when it finds none. |
| StatusRecord.ToString | src/qz/printer/status/Status.java:79-86 | The text begins with the header. After the header, ", JobId: " and the id follow iff the id is positive. The text ends with ", Job Name: " and the name when a name is set. Without a name, the text is the header followed by the job id part, which is empty unless the id is positive. |
| PrinterMatcher.MatchPrinter | src/qz/printer/PrintServiceMatcher.java:78-147 | The loop returns MatchSpec. That is the default printer when the query equals its name case-sensitively. Otherwise it is the first exact primary-name match, else the last legacy exact match, else the last begins-with, else the last contains, else null. |
| PrinterMatcher.Visit | src/qz/printer/PrintServiceMatcher.java:94-126 | One pass of the loop body overwrites `exact` exactly when the candidate's primary or (on macOS) legacy name equals the query, `begins` exactly when it begins with it, and `partial` exactly when it only contains it. It breaks exactly on an equal primary name. Everything else is left as it was. |
| PrinterMatcher.FindPrinterName | src/qz/printer/PrintServiceMatcher.java:63-70 | The result is null iff nothing matches; otherwise it is the matched printer's service name. |
| PrinterMatcher.FirstExact | src/qz/printer/PrintServiceMatcher.java:99-102 | The scan stops at the first candidate whose lower-cased primary name equals the query. |
| PrinterMatcher.MatchIsCandidate | src/qz/printer/PrintServiceMatcher.java:131-147 | A match is the default printer or one of the listed printers. |
| PrinterMatcher.NoMatchIffNone | src/qz/printer/PrintServiceMatcher.java:93-147 | Apart from the default printer, the result is null iff no candidate's name (or, on macOS, legacy name) equals, begins with or contains the query. |
| PrinterMatcher.MatchRanksHighest | src/qz/printer/PrintServiceMatcher.java:131-139 | Every matching candidate ranks no higher than the chosen one: exact, then begins-with, then contains. |
| PrinterMatcher.ExactWins | src/qz/printer/PrintServiceMatcher.java:99-102 | The first candidate whose primary name equals the query is returned. |
| PrinterMatcher.LastBeginsWins | src/qz/printer/PrintServiceMatcher.java:103-106 | Without an exact match, the last begins-with candidate wins. |
| PrinterMatcher.LastOfNone | src/qz/printer/PrintServiceMatcher.java:103-110 | A kind's slot stays null iff no candidate scanned has that kind. |
| PrinterMatcher.LastOfIsLast | src/qz/printer/PrintServiceMatcher.java:103-110 | A slot holds the last candidate of its kind, since each assignment overwrites it. |
| PrinterMatcher.ScanIgnoresCase | src/qz/printer/PrintServiceMatcher.java:91 | Without a default printer, a query and its lower-cased form match the same printer. |
| CupsPrinters.FirstToken | src/qz/printer/info/CupsPrinterList.java:38 | The printer id is the longest whitespace-free prefix of the block's first trimmed line. |
| CupsPrinters.FirstFieldIsFirstLine | src/qz/printer/info/CupsPrinterList.java:35-50 | A field is the trimmed text after the marker on the first trimmed line that starts with the marker. Later such lines are ignored. |
| CupsPrinters.BlockPrinter | src/qz/printer/info/CupsPrinterList.java:33-52 | A parsed block has no service yet. |
| CupsPrinters.ParseDevice | src/qz/printer/info/CupsPrinterList.java:33-52 | The loop over a block's lines yields BlockPrinter: the id from the first line, and the description and driver file from the lines below it. |
| CupsPrinters.ReadFields | src/qz/printer/info/CupsPrinterList.java:35-51 | Trims each line and sets each field once. Stops early when both are set. The fields are those of FirstField. |
| CupsPrinters.FirstFieldSettled | src/qz/printer/info/CupsPrinterList.java:48-50 | Once a field is found, later lines do not change it, so the early stop is sound. |
| CupsPrinters.PairService | src/qz/printer/info/CupsPrinterList.java:53-67 | Finds the first waiting service paired with the printer: by description on macOS, by printer id elsewhere. Returns the list's length when none pairs. |
| CupsPrinters.AddDevicesKeepsPaired | src/qz/printer/info/CupsPrinterList.java:53-73 | Every stored printer sits under its own id with a service that pairs with it. |
| CupsPrinters.AddDevicesConserves | src/qz/printer/info/CupsPrinterList.java:53-67 | Each service is either still waiting or paired, exactly once: a paired service leaves the list. |
| CupsPrinters.UnpairedPrinterDropped | src/qz/printer/info/CupsPrinterList.java:69-73 | A printer that pairs with no waiting service is not stored and changes nothing. |
| CupsPrinters.PairedPrinterStored | src/qz/printer/info/CupsPrinterList.java:53-73 | A printer that pairs is stored under its id with its first pairing service, and that service leaves the list. |
| CupsPrinters.CupsPrinterList.constructor | src/qz/printer/info/CupsPrinterList.java:16 | The list starts empty. |
| CupsPrinters.CupsPrinterList.PutAll | src/qz/printer/info/CupsPrinterList.java:20-76 | Without missing services, nothing changes. Otherwise the map is what the blocks of "\n" plus the lpstat output add, in order, blank blocks skipped. |
| CupsPrinters.ResolutionLine | src/qz/printer/info/CupsPrinterList.java:86-91 | A resolution line sets the density parsed from the digits before its first 'x'. The unit is DPI iff the lower-cased line contains "dpi". |
| CupsPrinters.OtherLineUnchanged | src/qz/printer/info/CupsPrinterList.java:85-100 | A line with neither marker changes nothing. |
| CupsPrinters.Fill | src/qz/printer/info/CupsPrinterList.java:78-108 | When reading completes, a driver is always set. |
| CupsPrinters.LastResolutionWins | src/qz/printer/info/CupsPrinterList.java:85-94 | The resolution is the last resolution line's. |
| CupsPrinters.LastDriverWins | src/qz/printer/info/CupsPrinterList.java:95-98 | The driver is the last driver line's. |
| CupsPrinters.NoDriverLineMeansDefault | src/qz/printer/info/CupsPrinterList.java:105-107 | With no driver line and no driver before, the driver is "TEXTONLY.ppd". |
| CupsPrinters.NoDriverLineKeepsDriver | src/qz/printer/info/CupsPrinterList.java:95-98 | Without driver lines, the driver is unchanged by the reading. |
| CupsPrinters.FailurePersists | src/qz/printer/info/CupsPrinterList.java:85-103 | An uncaught exception ends the reading: later lines have no effect. |
| CupsPrinters.ReadPpdLine | src/qz/printer/info/CupsPrinterList.java:86-98 | One PPD line yields the effect EffectOf gives it: a resolution whose unit is dots per inch exactly when the line mentions dpi in any ASCII case, an unchanged printer when the density does not parse, a driver name stripped of quotes and spaces, or the exception the line raises. |
| CupsPrinters.FillAttributes | src/qz/printer/info/CupsPrinterList.java:78-108 | The loop over the lines, then the default driver, gives Fill. |
| Deploy.ParentDirectory | src/qz/deploy/DeployUtilities.java:85-89 | "" when the path has no separator. Otherwise the prefix ending just before the last separator. |
| Deploy.FixWhitespaces | src/qz/deploy/DeployUtilities.java:261-263 | The fixed path is never longer than the input. A path without "%20" is returned unchanged. |
| Deploy.FixedContainsNoCode | src/qz/deploy/DeployUtilities.java:261-263 | The result of fixWhitespaces contains no "%20". |
| Deploy.FixedHasNoCode | src/qz/deploy/DeployUtilities.java:261-263 | "%20" occurs at no index of the result. |
| Deploy.FixWhitespacesIdempotent | src/qz/deploy/DeployUtilities.java:261-263 | fixWhitespaces applied twice equals applying it once. |
| Deploy.PropertiesPath | src/qz/deploy/DeployUtilities.java:163-176 | The override when given. Otherwise the properties file beside the jar, with "%20" fixed. None (NullPointerException) when the jar path is unknown. |
| Deploy.Name | src/qz/deploy/DeployUtilities.java:248-250 | "startup" and "desktop". |
| Deploy.ReadStartupFile | src/qz/deploy/DeployUtilities.java:126-134 | "1" when neither file exists. A present user file gives its first line, or an IOException when it cannot be read. Without a user file, the shared file gives its first line, or an IOException when it cannot be read. An index error iff the file read is empty. |
| Deploy.AutostartOf | src/qz/deploy/DeployUtilities.java:52-59 | True when no file exists. False when the file read cannot be read. Otherwise whether the first line of the file read is "1": the user's file, or the shared file when the user has none. No result iff the file read is empty. |
| Deploy.SharedFileStandsIn | src/qz/deploy/DeployUtilities.java:127-133 | Without a user file, a present shared file gives the same answer the same file would give as the user's file. |
| Deploy.UserFileDecides | src/qz/deploy/DeployUtilities.java:127-133 | A present user file decides alone; the shared file is not read. |
| Deploy.DeployUtilities.constructor | src/qz/deploy/DeployUtilities.java:40-41 | No jar path and no shortcut name yet. |
| Deploy.DeployUtilities.ShortcutName | src/qz/deploy/DeployUtilities.java:101-103 | "Java Shortcut" until a name is set, then that name. |
| Deploy.DeployUtilities.SetShortcutName | src/qz/deploy/DeployUtilities.java:95-99 | Null leaves the name unchanged. A name is what getShortcutName returns next. |
| Deploy.DeployUtilities.JarPath | src/qz/deploy/DeployUtilities.java:220-225 | The cached path once set. Otherwise the detected one, which is then cached. |
| Deploy.DeployUtilities.ParentDirectoryOfJar | src/qz/deploy/DeployUtilities.java:91-93 | The parent directory of the (cached or detected) jar path. |
| Deploy.DeployUtilities.IsAutostart | src/qz/deploy/DeployUtilities.java:52-59 | True with no file. False when the file read cannot be read. Otherwise whether the first line is "1", read from the user's file, or from the shared file when the user has none. No result iff the file read is empty. |
| Deploy.DeployUtilities.SetAutostart | src/qz/deploy/DeployUtilities.java:43-50 | Writes "1" or "0" to the user's file through writeStartupFile (:120-124). Succeeds iff the write goes through and the written file can be read back, and then the next isAutostart gives the value set. A written file that cannot be read makes it return false and isAutostart false, as the read-back IOException at :123 does. When the write fails nothing changes. |
| MacInstall.AppPathAsWritten | src/qz/installer/MacInstaller.java:98-107 | A prefix of the jar path. When ".app/" occurs at index i > 0, the first i-1 characters; otherwise the path itself. |
| MacInstall.AppPath | src/qz/installer/MacInstaller.java:98-107 | A prefix of the jar path, ending in ".app" where the first ".app/" starts; the path itself when there is none. |
| MacInstall.AppPathAsWrittenDropsFive | src/qz/installer/MacInstaller.java:101-104 | The path as written is the bundle path minus its last five characters. |
| MacInstall.AppPathAsWrittenExample | src/qz/installer/MacInstaller.java:103 | For "/QZ.app/x" the code gives "/Q", while the bundle is "/QZ.app". |
| MacInstall.PackageName | src/qz/installer/MacInstaller.java:109-120 | Ends in "." + PROPS_FILE. With two or more `\W` parts, the last, then the one before it, then PROPS_FILE. "local." + PROPS_FILE iff fewer than two parts. |
| MacInstall.NotFallback | src/qz/installer/MacInstaller.java:112-118 | A name built from two parts never equals the fallback name. |
| MacInstall.MacInstaller.constructor | src/qz/installer/MacInstaller.java:28-29 | PACKAGE_NAME is getPackageName's. The destination starts as "/Applications/" + ABOUT_TITLE + ".app". |
| MacInstall.MacInstaller.SetDestination | src/qz/installer/MacInstaller.java:53-59 | getDestination returns what was set. |
| MacInstall.MacInstaller.StartupEntry | src/qz/installer/MacInstaller.java:36-42 | The plist path is "/Library/LaunchAgents/" + PACKAGE_NAME + ".plist". The field map has exactly %PACKAGE_NAME%, %COMMAND% (the destination + "/Contents/MacOS/" + ABOUT_TITLE) and %PARAM% ("--honorautostart"). |
| VendorUrl.Pattern | src/qz/build/VendorUrlPattern.java:11-14 | Each vendor's pattern has at least one piece. |
| VendorUrl.FirstVendor | src/qz/build/VendorUrlPattern.java:26-30 | The first candidate whose name begins the upper-cased argument. |
| VendorUrl.GetVendor | src/qz/build/VendorUrlPattern.java:24-34 | Null for a null argument. A vendor returned has a name that begins the upper-cased argument. ADOPT is returned whenever it matches, and BELL only when SEMERU does not match. |
| VendorUrl.GetVendorSpec | src/qz/build/VendorUrlPattern.java:24-34 | For a non-null argument, getVendor returns null iff no vendor's name begins the upper-cased argument, in both directions. This is the unmatched case that logs a fallback and still returns null. |
| VendorUrl.AdoptFirst | src/qz/build/VendorUrlPattern.java:26-29 | ADOPT is chosen whenever it matches. |
| VendorUrl.GetVendorIgnoresCase | src/qz/build/VendorUrlPattern.java:27 | The lookup of a name equals the lookup of its upper-cased form. |
| VendorUrl.Fill | src/qz/build/VendorUrlPattern.java:40-45 | Formatting fails iff there are fewer arguments than placeholders. |
| VendorUrl.FillPlaces | src/qz/build/VendorUrlPattern.java:40-45 | The k-th argument follows the first k+1 pieces and k arguments, in order. |
| VendorUrl.VendorFormat | src/qz/build/VendorUrlPattern.java:36-47 | No URL (NullPointerException in the switch) iff getVendor gives null. |
| VendorUrl.BellUrl | src/qz/build/VendorUrlPattern.java:40 | The BELL URL: javaVersion twice, then platform, arch and fileExt, in the BELL pattern. |
| VendorUrl.SemeruUrl | src/qz/build/VendorUrlPattern.java:42 | The SEMERU URL, with the GC engine and version in both the release tag and the file name. |
| VendorUrl.AdoptUrl | src/qz/build/VendorUrlPattern.java:43-45 | The ADOPT URL, with javaMajor in the first and third placeholders. |
| VendorUrl.UnknownVendorFails | src/qz/build/VendorUrlPattern.java:32-38 | "ZULU" matches no vendor, and format fails although a default vendor is announced. |
| VendorUrl.VendorFormatWithDefault | src/qz/build/VendorUrlPattern.java:36-47 | A matched vendor formats as before. A null or unmatched vendor formats as DEFAULT_VENDOR (ADOPT). |

## Left out

- Windows and JNA plumbing is not part of this model: attachToSystem,
  waitOnChange, ingestChange's structure reading, run, interrupt,
  issueError, getAllStatuses and the loading of localized strings. The
  placeholder document names come in as a parameter set.
- Lookup tables are parameters because their contents are defined
  elsewhere: NativeStatus.fromWmi*, the Wmi*StatusMap raw codes, notOkMask,
  codeLookupTable and cupsLookupTable. The winspool attribute words use the
  public winspool.h values.
- A published event is the code handed to the decoder, not the decoded
  Status array.
- WmiStatusThread.WmiPrinterStatusThread.SendPendingStatuses: HashMap
  iteration order is unspecified, so the order is a parameter that lists
  each pending job once. Removal through the iterator is modelled as removal
  from the map.
- Concurrency is not modelled; the tracker runs on one thread.
- Java's English and ROOT case mappings also map non-ASCII letters. The
  model maps ASCII letters only.
- CupsPrinters.EffectOf: the resolution test lower-cases the line with the JVM's default locale. The model assumes a default locale that maps ASCII letters to ASCII letters. Under a Turkish default locale "DPI" lower-cases to "dpı", and the source then reports DPCM; that case is not modelled.
- CupsPrinters.ReadPpdLine: inherits the ASCII case-mapping assumption of EffectOf for the default-locale toLowerCase.
- PrinterStatusCodec.GetFromWmiCode: requires bit 31 clear, because the
  source does not terminate otherwise (see Findings).
- getNativePrinterList, getDefaultPrinter, getPrintersJSON and the
  PrintService lookups are not part of this model. The candidates and the
  default printer are parameters, and so is the operating-system test.
- Running lpstat, findMissing, reading the PPD file and the NativePrinter
  class are not part of this model.
  - The lpstat text, the missing services and the PPD lines are parameters.
  - A PPD file that is absent, or cannot be opened, is given as no lines.
    An IOException part-way through reading is not modelled.
  - NativePrinter's lazy fields are Option values, and the macOS pairing
    compares the description's value with the service name.
- detectJarPath, loadTrayProperties, setExecutable, getSystemShortcutCreator
  and real file reads and writes are not part of this model.
  - The autostart files are given states.
  - Whether a write goes through, and whether the written file can then be read, are parameters.
  - File.separator and the detected jar path are parameters.
  - The data directories are not modelled.
- The Constants class is not part of this model. ABOUT_TITLE, ABOUT_URL and
  PROPS_FILE are parameters.
- The MacInstaller side effects (addSystemSettings, removeSystemSettings,
  removeLegacyStartup, spawn and writing the launch-agent file) are shell
  and file operations. Only the file name and the field map are modelled.
- String.format is modelled for `%s` conversions only, as the pieces of a
  pattern between its placeholders.
- The Java log messages are not modelled.

## Findings

| source | as written | input that shows it | evidently intended | confidence | as-written member | corrected member |
|---|---|---|---|---|---|---|
| src/qz/installer/MacInstaller.java:103 | `target.substring(0, appIndex - 1)` cuts the path one character before ".app/" | jar path "/QZ.app/x" gives "/Q" | the bundle path up to and including ".app", "/QZ.app" | high, not executed | MacInstall.AppPathAsWrittenExample | MacInstall.AppPath |
| src/qz/printer/status/PrinterStatus.java:40-45 | the signed test `(mask & code) > 0` never holds for bit 31, so a code with bit 31 set never brings bitPopulation to 0 | code 0x80000000 (Integer.MIN_VALUE) | one status per set bit for every code, using the test `(mask & code) != 0` | high, not executed | PrinterStatusCodec.SignBitNeverCounted | PrinterStatusCodec.GetFromWmiCodeAllBits |
| src/qz/build/VendorUrlPattern.java:32-38 | getVendor returns null for an unmatched vendor, and `switch(pattern)` on null throws before the default branch | vendor "ZULU" | fall back to DEFAULT_VENDOR, as the warning on line 32 announces | medium, not executed | VendorUrl.UnknownVendorFails | VendorUrl.VendorFormatWithDefault |
