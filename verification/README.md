# Calendar widget: verified models

Dafny 4.11 models of the parts of the Matrix calendar widget whose correctness is an argument
rather than a single branch, with proofs of that argument. `dafny verify dfyconfig.toml` checks
everything. Each component stands on its own; only `Common` is shared.

* **Release transaction** (`ReleaseModel`, `ReleaseRecord`, `Release`, `ReleaseRun`,
  `ReleaseProtocol`). One class
  holds the host: the canonical file, the running container, the image tags, the lock, the
  record. An oracle decides, call by call, whether an external call fails before or after its
  effect and whether an operator edits the canonical file first. `Runner.Transaction` follows the
  script statement by statement, and its contract holds for every oracle. The host also moves an
  automaton (`ReleaseProtocol.Next`) with each act, and `ReleaseProtocol` proves what any number of
  runs that follow this automaton can do to each other.
* **Time zone equality** (`StableJson`, `TimezoneProjection`, `TimezoneWriting`). The
  normalise-sort-serialise comparison is proved equal to an independent meaning: the multiset of
  observances, and that to what a definition is written from. The serialiser's partner is a parser
  that recovers the value from the text.
* **Content lines** (`ContentLine`, `HeaderScan`, `ParameterLookup`). Folding, unfolding, and the
  two quote-aware scanners, with round trips in both directions, and the two lookups that ignore
  quotes.
* **Conditional access** (`DeletionSafety`, `ConditionalAccess`, `RangeQuery`). Any number of
  clients and foreign writers over one store of versioned resources; what takes effect is tied to
  the operation its client began.
* **DAV search** (`DavSearch`, `DavAnswer`). The recursive search is proved equal to a search of a
  tree that carries expanded names and no prefixes, and, for every answer as a server writes it, to
  the first status given to the property.
* **Path segments** (`PathSegment`, `PathSpelling`). Iterated percent decoding over an explicit UTF-8
  decoder, the relation of spelling that it inverts, and the comparison of decoded paths.
* **Bounded reading** (`BoundedResponse`), **signed callback** (`Callback`, `ReplayCache`) and
  **clean-up after ambiguous creates** (`ContractCleanup`).

Where the proofs found more than the code or its documentation says:

* `atomic_replace` overwrites a foreign edit exactly when the edit lands between the second hash
  and the rename (`Release.ReplaceClobbersOnlyInGap`, and `Release.GapLosesAnEdit` for an input).
  The deployment guide warns of this gap (docs/deployment-docker.md:696-698).
* A "rolled-back" result always restores the running image, and three calls before the end the
  updated text is gone from the file or has just been overwritten. Whether the file then holds the
  original depends on the operator alone: exactly when nobody has edited since the last canonical
  write, or the last such edit leaves that text (`Release.HoldsExactly`, carried into
  `ReleaseRun.Runner.Transaction`). The same holds of "complete" and the updated text.
* In a good starting world, while nobody edits, a run is complete exactly when none of its calls
  fails, and when only one fails it never ends recovery-incomplete: it stops before it switches
  anything or goes back (`ReleaseRun.Runner.Transaction`, with `Release.CountsMean`).
* The record on disk can be stale after an incomplete recovery: it can still say complete or
  rolled back (`ReleaseRecord.RecordAfterIncomplete`).
* The single-parameter lookups read another value than the scanners for blanks around a value, for
  a quote at one end only, and for text at a quoted semicolon; `ParameterLookup.LookupAgrees`,
  `ParameterLookup.PlainLookupAgrees` and `ParameterLookup.HasAgreesExactly` say exactly when they
  do not.
* A signed request is served at most once unless it is served in the first second of its window:
  the window is up to 60,999 ms long and a nonce is remembered for 60,000 ms
  (`ReplayCache.ServedAtMostOnceExactly`).
* A DAV status line is read exactly when its reason phrase is not blank, since the text is trimmed
  before the code is looked for (`DavAnswer.StatusLineRead`).
* The 32-hour overfetch exceeds the least sufficient one, which is 86,399,999 ms, one millisecond
  short of a day (`RangeQuery.CoversExactly`).

Reading conventions: a string is a sequence of Unicode scalar values; a hash is taken to be
injective, so contents stand for their digests; an order such as `localeCompare` is any total
order; the result of an external parser is the starting point.
A good world for a release (`ReleaseRun.Runner.GoodWorld`) is one in which the file is regular and
refers once to an image that is there, the server was started from it, the archive names the
candidate alone and loading it gives the candidate image, the candidate changes nothing but the
server image, and either text with the rollback overlay selects the previous image.

## Model

| member | source | states |
|---|---|---|
| ReleaseRun.Runner.Transaction | scripts/release/remote_server_release.py:262-519 | For every schedule of failures and operator edits: before activation nothing is switched or written, after it nothing raises, and the plan rewrites one reference of a text the file held during the run. Complete: the candidate runs, its tag denotes it, and the one canonical write was of the updated text, which the file holds exactly when the last edit since, if any, leaves it; without edits the server was started from that text, which renders to the baseline but for the image. Rolled back: the image that ran before runs again, its tag still denotes it, the updated text was gone or just overwritten three calls before the end, and the file holds the original exactly when the last edit since the last canonical write, if any, leaves it. In every case canonical writes go from original to updated or back, switches use one of three sources, only the candidate tag moves, the record is written in the order of the phases and last with the phase of the outcome, and the lock stays exactly after an incomplete recovery. The backup and both overlays are on disk and the backup and dependency hooks have passed twice before anything is switched; the health and dependency hooks pass after the switch and again after the rewrite in a complete run, and last in one rolled back. In a good world, while nobody edits: complete exactly when no call fails, and not incomplete when only one fails |
| ReleaseRun.Runner.Preflighted | scripts/release/remote_server_release.py:280-421 | A preflight that succeeds has found the previous image running, the candidate tag denoting the candidate image, and a canonical text with exactly one reference to replace; if nobody edited, also that the server was started from that text, and that the overlay and the updated text both render to the baseline with the candidate as server image. One that fails has moved no tag but the candidate and attempted to record its failure once a record existed. In a good world, when no call fails and nobody edits, it succeeds with the plan of the text that is there |
| ReleaseRun.Runner.ActivateOrRecover | scripts/release/remote_server_release.py:422-503 | After activation the run ends complete, rolled back or recovery-incomplete and never raises; the lock stays exactly in the last case; the first of at most two switches goes forward. Complete and rolled back fix the running image and when exactly the file holds the updated or the original text. If the file held the original and nobody edited, it is the original or the updated text in full, and the original after a rollback. Where the candidate can be started and the previous image again from either text, and while nobody edits: complete exactly when no call fails, rolled back when one does |
| ReleaseRun.Runner.Activate | scripts/release/remote_server_release.py:424-445 | One switch was made, forward, and at most one canonical write. Success means the candidate runs, the updated text was written and the completion was recorded; if nobody edited, the file holds that text and the server was started from it. When the candidate can be started, no call fails and nobody edits, it succeeds |
| ReleaseRun.Runner.Recover | scripts/release/remote_server_release.py:446-496 | At most one switch is made, and from the saved copy only when that renders to the baseline with the previous image. Success means the previous image runs and its tag still denotes it, the updated text was gone or just overwritten before the last three calls, and the file holds the original exactly when the last edit since the last canonical write, if any, leaves it. When no call fails, nobody edits and the previous image can be started, from the file if it holds a known text and else from the saved copy, then that image runs again, and recovery succeeds exactly when the text is a known one |
| ReleaseRun.Runner.BringBack | scripts/release/remote_server_release.py:449-488 | Success means the previous image runs and its tag still denotes it; when no call fails, nobody edits and that image can be started, it succeeds, by one switch from the file or from the saved copy |
| ReleaseRun.Runner.CheckArchive | scripts/release/remote_server_release.py:344-392 | The candidate tag denotes the candidate image afterwards and no other tag has moved, wherever loading puts the tags the archive names |
| ReleaseRun.Runner.CheckRendering | scripts/release/remote_server_release.py:393-408 | If nobody edited, the file with the candidate overlay and the updated text alone both render to what the file renders to with the candidate as server image |
| ReleaseRun.Runner.RestoreFromSaved | scripts/release/remote_server_release.py:459-474 | The saved original is switched to only when, with the rollback overlay, it renders to the baseline with the previous image, whatever has been edited |
| ReleaseRun.Runner.PutBackAndFinish | scripts/release/remote_server_release.py:489-496 | A recovery that reports success found the updated text gone or overwrote it before its last three calls, and leaves the original exactly when the last edit since the last canonical write, if any, leaves it; if nobody edited, the original stands in place of the updated text and any other text is kept |
| ReleaseRun.Runner.Acquire | scripts/release/remote_server_release.py:266-276 | A failed acquisition leaves the lock as it was; a successful one found it free |
| Release.Host.AtomicReplace | scripts/release/remote_server_release.py:95-119 | Refines the call-by-call specification of compare-and-replace under faults and edits |
| Release.ReplaceClobbersOnlyInGap | scripts/release/remote_server_release.py:95-119 | A write is made only over content just checked, and destroys other content exactly when an edit lands between re-check and rename |
| Release.ReplaceIsWhole | scripts/release/remote_server_release.py:95-119 | Whatever fails, the file holds the old bytes, the new bytes, or an operator's edit in full |
| Release.GapLosesAnEdit | scripts/release/remote_server_release.py:108-114 | A concrete edit that the check cannot see and the rename destroys |
| Release.HoldsExactly | scripts/release/remote_server_release.py:424-496 | A file that holds a text unless someone has edited it since the last canonical write holds it exactly when the last such edit, if there is one, leaves that text |
| Release.CountsMean | scripts/release/remote_server_release.py:262-519 | The counts of failed calls and of edits in the contracts are those of the oracle: equal counts mean that no call failed, or nobody edited, in between, and a difference of at most one that no two calls failed |
| Release.ReplaceSucceeds | scripts/release/remote_server_release.py:95-119 | Compare-and-replace succeeds only when none of its calls fails, and then always if the file holds what is expected and nobody edits |
| Release.PutBackRestoresExactly | scripts/release/remote_server_release.py:489-490 | A successful put-back leaves the original exactly when the file, as read again, held it, or held the updated text and no edit at the sync after the rename leaves something else; edits before the rename do not matter |
| Release.RollbackRestoresExactly | scripts/release/remote_server_release.py:489-496 | The same over the put-back and the three calls that end recovery: the last edit after the rename decides |
| Release.PutBackOverForeignEdit | scripts/release/remote_server_release.py:489-490 | The put-back step, on a file edited before it is read again: the step succeeds and keeps the foreign text |
| ReleaseModel.SameExceptServerImageMeans | scripts/release/remote_server_release.py:142-149 | The check passes exactly when the later model is the earlier one with the candidate as server image |
| ReleaseModel.SingleOccurrence | scripts/release/remote_server_release.py:300-302 | One counted occurrence is rewritten in place and nothing around it changes |
| ReleaseModel.CountOne | scripts/release/remote_server_release.py:300-302 | One occurrence is counted exactly when the text occurs and every occurrence overlaps the first |
| ReleaseModel.CheckedArchiveNamesOnly | scripts/release/remote_server_release.py:52-92 | An accepted archive names the candidate tag and no other, in either of its tables |
| ReleaseModel.WrittenArchivePasses | scripts/release/remote_server_release.py:52-92 | An archive that names the one tag in its manifest, and in its table if it has one, passes |
| ReleaseModel.ArchiveTag | scripts/release/remote_server_release.py:219-223 | Every positive run and attempt number makes a candidate tag |
| ReleaseModel.LoadKeepsOtherTags | scripts/release/remote_server_release.py:52-92 | Wherever loading puts the tags an accepted archive names, in either table, every other tag, the rollback tag included, stays |
| ReleaseModel.OnlyNamedTagsMove | scripts/release/remote_server_release.py:52-92 | Whatever is tagged before and wherever loading puts things, no tag but one can move exactly when the archive names no other tag |
| ReleaseModel.ReplacementShows | scripts/release/remote_server_release.py:300-302 | Replacing the one occurrence by another tag changes the text |
| ReleaseRecord.RecordAfterSuccess | scripts/release/remote_server_release.py:442-496 | After a reported success the record on disk has its phase |
| ReleaseRecord.RecordAfterFailure | scripts/release/remote_server_release.py:505-513 | After a failed preflight the record on disk is the failure, or the first record when that write was lost, or none when both were |
| ReleaseRecord.RecordAfterIncomplete | scripts/release/remote_server_release.py:446-503 | After an incomplete recovery the record on disk has that phase unless the last write was lost; then it is, exactly, rolled back, recovering, complete or prepared, whichever write took effect last: a success that was never reported can be on disk |
| ReleaseRecord.IncompleteShape | scripts/release/remote_server_release.py:446-503 | The record writes of such a run are the first one, at most one failed completion, the start of recovery, at most one failed rollback, and the last one |
| ReleaseProtocol.MutualExclusion | scripts/release/remote_server_release.py:266-279 | In every interleaving of runs at most one is inside the locked section |
| ReleaseProtocol.LockHeldMeans | scripts/release/remote_server_release.py:497-519 | The lock is held exactly by the run inside, or by one that ended with recovery incomplete or died inside |
| ReleaseProtocol.FinishingReleases | scripts/release/remote_server_release.py:497-519 | A finishing run leaves the lock its own exactly when recovery was incomplete |
| ReleaseProtocol.StuckFreezes | scripts/release/remote_server_release.py:266-279 | After an incomplete recovery no run changes the server or the file until the lock is cleared |
| StableJson.StableJsonIsFaithful | matrix-calendar-server/src/caldav/ICalendarTimezoneProjectionSafety.ts:323-334 | Two texts are equal exactly when the values are equal up to the order of object keys |
| StableJson.ReadsBack | matrix-calendar-server/src/caldav/ICalendarTimezoneProjectionSafety.ts:323-334 | Whatever follows a text, a reader recovers the value and the rest: no text is a prefix trap |
| StableJson.QuotedReadsBack | matrix-calendar-server/src/caldav/ICalendarTimezoneProjectionSafety.ts:323-334 | String escaping loses nothing (section 7 of RFC 8259) |
| TimezoneProjection.MatchMeansSameZone | matrix-calendar-server/src/caldav/ICalendarTimezoneProjectionSafety.ts:111-128 | An embedded definition is accepted exactly when both are well formed for the identifier and hold the same multiset of observances |
| TimezoneWriting.MatchMeansSameWriting | matrix-calendar-server/src/caldav/ICalendarTimezoneProjectionSafety.ts:111-260 | An embedded definition is accepted exactly when it and the bundled one are each written for the identifier from some list of rules (kind, start, offsets, recurrence rule, packed dates, display names, in any order of lines), and the two lists say the same of the same number of observances: kind, start, offsets in seconds, rule up to key order, multiset of dates |
| TimezoneWriting.WrittenZonesMatch | matrix-calendar-server/src/caldav/ICalendarTimezoneProjectionSafety.ts:111-128 | The same for two given ways of writing them, whichever they are |
| TimezoneWriting.RulesFound | matrix-calendar-server/src/caldav/ICalendarTimezoneProjectionSafety.ts:169-260 | Every well-formed observance is written from some rules, so nothing else is accepted |
| TimezoneProjection.NormalizeTimezone | matrix-calendar-server/src/caldav/ICalendarTimezoneProjectionSafety.ts:130-269 | The loops that collect, check and sort compute the normal form the main result speaks of, and refuse exactly the ill-formed definitions |
| TimezoneProjection.FormDecidesMeaning | matrix-calendar-server/src/caldav/ICalendarTimezoneProjectionSafety.ts:169-260 | Two observance forms are written alike exactly when kind, start, offsets in seconds, rule up to key order, and multiset of dates agree |
| TimezoneProjection.PropertyOrderIrrelevant | matrix-calendar-server/src/caldav/ICalendarTimezoneProjectionSafety.ts:169-260 | The order of properties in an observance does not matter |
| TimezoneProjection.NameIrrelevant | matrix-calendar-server/src/caldav/ICalendarTimezoneProjectionSafety.ts:169-260 | Display names do not matter |
| TimezoneProjection.PackingIrrelevant | matrix-calendar-server/src/caldav/ICalendarTimezoneProjectionSafety.ts:169-260 | One date property split into two means the same |
| TimezoneProjection.ZoneOrderIrrelevant | matrix-calendar-server/src/caldav/ICalendarTimezoneProjectionSafety.ts:130-269 | The order of observances and of zone properties does not matter |
| TimezoneProjection.MetadataIrrelevant | matrix-calendar-server/src/caldav/ICalendarTimezoneProjectionSafety.ts:130-167 | Permitted metadata does not matter |
| TimezoneProjection.OffsetReadsBack | matrix-calendar-server/src/caldav/ICalendarTimezoneProjectionSafety.ts:294-309 | Every spelling of an offset reads as its seconds, and out-of-range fields are refused |
| TimezoneProjection.OffsetOnlySpellings | matrix-calendar-server/src/caldav/ICalendarTimezoneProjectionSafety.ts:294-309 | Nothing but those spellings is accepted |
| TimezoneProjection.HasUnsupportedTimezoneRules | matrix-calendar-server/src/caldav/ICalendarTimezoneProjectionSafety.ts:61-109 | Reports exactly when a date of the series has an unreadable zone parameter or uses a zone without bundled rules or with a differing or repeated embedded definition |
| ContentLine.FoldContentLine | matrix-calendar-server/src/caldav/ICalendarContentLine.ts:39-56 | Whole code points, every line within 75 octets, one space before each continuation, and no fold has fewer lines |
| ContentLine.OctetsAreBytes | matrix-calendar-server/src/caldav/ICalendarContentLine.ts:39-56 | The octets counted are the bytes of the UTF-8 encoding |
| ContentLine.TightIsShortest | matrix-calendar-server/src/caldav/ICalendarContentLine.ts:39-56 | A fold that breaks only where the next code point has no room needs no more lines than any fold |
| ContentLine.ReadContentLines | matrix-calendar-server/src/caldav/ICalendarContentLine.ts:101-118 | The groups are the physical lines in order, each value is the unfolding of its group, and only the first head may look like a continuation |
| ContentLine.ReadingIsUnique | matrix-calendar-server/src/caldav/ICalendarContentLine.ts:101-118 | There is only one such grouping |
| ContentLine.FoldedTextReadsBack | matrix-calendar-server/src/caldav/ICalendarContentLine.ts:39-118 | Fold any writable values, end each physical line with CRLF or LF in any mix, and reading gives back exactly the values and physical lines |
| HeaderScan.SplitContentLineHeader | matrix-calendar-server/src/caldav/ICalendarContentLine.ts:23-37 | The slicing scanner cuts at exactly the semicolons outside quotes |
| HeaderScan.ScanParameterSegments | matrix-calendar-server/src/caldav/ICalendarContentLine.ts:58-76 | The accumulating scanner gives the same segments on every header |
| HeaderScan.SplitJoin | matrix-calendar-server/src/caldav/ICalendarContentLine.ts:23-37 | Splitting what was joined from separable segments gives them back |
| HeaderScan.JoinSplit | matrix-calendar-server/src/caldav/ICalendarContentLine.ts:23-37 | Joining the segments of any header gives the header, and they are separable |
| HeaderScan.ContentLineColonIndex | matrix-calendar-server/src/caldav/ICalendarContentLine.ts:165-175 | Finds the first colon outside quotes |
| HeaderScan.ParseContentLine | matrix-calendar-server/src/caldav/ICalendarContentLine.ts:120-134 | Computes the parsed line that the next two rows describe |
| HeaderScan.ParseCuts | matrix-calendar-server/src/caldav/ICalendarContentLine.ts:120-134 | Header, colon and value make up the line, and the header has no open quote and no open colon |
| HeaderScan.ParseBuilds | matrix-calendar-server/src/caldav/ICalendarContentLine.ts:120-134 | A named property with separable segments and any value parses back to name, segments and value |
| HeaderScan.LowerMeans | matrix-calendar-server/src/caldav/ICalendarContentLine.ts:120-134 | Lower-casing puts each capital at the same place of the small alphabet and leaves all else |
| Common.TrimMeans | matrix-calendar-server/src/caldav/ICalendarContentLine.ts:120-134 | Trimming takes the white space off both ends and nothing else |
| HeaderScan.ParameterReadsBack | matrix-calendar-server/src/caldav/ICalendarContentLine.ts:78-99 | Every writable parameter, quoted or bare, survives being written and read |
| HeaderScan.ContentLineParameters | matrix-calendar-server/src/caldav/ICalendarContentLine.ts:58-99 | Gives one parameter for every segment after the property, in order; what it gives for a written header is the next row |
| HeaderScan.ParametersReadBack | matrix-calendar-server/src/caldav/ICalendarContentLine.ts:58-99 | A header written from a property and any list of writable parameters, each quoted or bare, gives exactly these parameters in order |
| ParameterLookup.NaiveAgrees | matrix-calendar-server/src/caldav/ICalendarContentLine.ts:140-163 | Cutting at every semicolon gives the segments of the scanners exactly when no semicolon is quoted; this is about the cutting alone |
| ParameterLookup.LookupAgrees | matrix-calendar-server/src/caldav/ICalendarContentLine.ts:140-151 | The value lookup returns the value of the scanner's first parameter of that name exactly when the item it settles on is a whole parameter with a neat value or none; is the start of a parameter cut at a quoted semicolon, without a value, and no later parameter of the name has one; or stands behind a quoted semicolon and is repeated by the first later parameter of the name, or has no value if that one is absent or has none. A name with a semicolon is never found, so the scanner must find no value |
| ParameterLookup.PlainLookupAgrees | matrix-calendar-server/src/caldav/ICalendarContentLine.ts:140-151 | On a header with no quoted semicolon the two values agree exactly when the first item of that name is absent, has no value or has a neat one |
| ParameterLookup.NeatValuesAgree | matrix-calendar-server/src/caldav/ICalendarContentLine.ts:87-95 | The two ways of taking off blanks and quotes give the same value exactly when the raw value has no blanks at its ends and quotes at both ends or at none |
| ParameterLookup.HasMeans | matrix-calendar-server/src/caldav/ICalendarContentLine.ts:153-163 | The presence lookup finds a name exactly when the scanner sees a parameter of that name, without semicolon, or a piece of a segment with a quoted semicolon spells it |
| ParameterLookup.HasAgreesExactly | matrix-calendar-server/src/caldav/ICalendarContentLine.ts:153-163 | Lookup and scanner see the same set of names exactly when no parameter has a semicolon in its name and every such piece has the name of a parameter |
| ParameterLookup.NaiveIsPieces | matrix-calendar-server/src/caldav/ICalendarContentLine.ts:144-144 | The items of the lookups are the segments of the scanner, cut further at their quoted semicolons |
| ParameterLookup.OneSidedQuoteDiffers | matrix-calendar-server/src/caldav/ICalendarContentLine.ts:140-151 | A header without quoted semicolon on which the values differ by a quote |
| ParameterLookup.BlankDiffers | matrix-calendar-server/src/caldav/ICalendarContentLine.ts:140-151 | A header on which the values differ by a blank |
| ParameterLookup.QuotedNameFound | matrix-calendar-server/src/caldav/ICalendarContentLine.ts:153-163 | A header in which the lookup finds a parameter that the scanner does not see |
| DeletionSafety.IsSafeSingleVeventSeries | matrix-calendar-server/src/caldav/ICalendarDeletionSafety.ts:20-84 | Accepts exactly the resources that are one series: allowed components only, one non-empty UID shared by every event, one master |
| DeletionSafety.SafeMeans | matrix-calendar-server/src/caldav/ICalendarDeletionSafety.ts:20-84 | Position by position: each part is a zone with flat rules or an event with flat alarms and exactly one UID property, the same non-empty text in all, at most one RECURRENCE-ID, and exactly one event has none |
| ConditionalAccess.DeleteRemovesWhatWasJudged | matrix-calendar-server/src/controller/CalendarGatewayController.ts:999-1015 | In every interleaving a delete that took effect removed exactly the version that was read and judged safe |
| ConditionalAccess.AtMostOneWinner | matrix-calendar-server/src/caldav/CalDavEventClient.ts:292-372 | Of all writes to a resource conditioned on one tag, at most one takes effect |
| ConditionalAccess.NothingOverwrittenUnseen | matrix-calendar-server/src/caldav/CalDavEventClient.ts:292-349 | An update replaces exactly the version it names and a create replaces nothing |
| ConditionalAccess.OutcomesAreHonest | matrix-calendar-server/src/caldav/CalDavEventClient.ts:351-372 | A client told of success has had a write applied; one told of a conflict has not. What was applied is the next two rows |
| ConditionalAccess.AppliedAsAsked | matrix-calendar-server/src/caldav/CalDavEventClient.ts:292-349 | In every run, each write that took effect was begun by its own client with this resource, this condition and this very body, and was sent with the tag it got; each delete was begun for this resource and tag |
| ConditionalAccess.SuccessIsOwn | matrix-calendar-server/src/caldav/CalDavEventClient.ts:328-372 | A client told of success had its own operation carried out: its body stored, or its resource removed |
| ConditionalAccess.UndisturbedPutSucceeds | matrix-calendar-server/src/caldav/CalDavEventClient.ts:292-372 | An update of the version that is there, or a create where nothing is, stores the body and reports success |
| ConditionalAccess.StalePutIsRefused | matrix-calendar-server/src/caldav/CalDavEventClient.ts:292-372 | A write conditioned on another version stores nothing and, answered 409 or 412, reports a conflict |
| ConditionalAccess.UndisturbedDeleteSucceeds | matrix-calendar-server/src/controller/CalendarGatewayController.ts:999-1015 | A gateway delete of one complete series under its current strong tag removes it and reports success |
| ConditionalAccess.NoUpdateIsLost | matrix-calendar-server/src/caldav/CalDavEventClient.ts:292-372 | At any point of a run, while nobody writes a resource except through conditional writes: each one that takes effect leaves what its client asked for and names the tag of the very version the one before it left (or that there is none), no two name the same tag, and what a write left is what the resource holds in the end unless a later write that names it replaced it |
| ConditionalAccess.ReachableInv | matrix-calendar-server/src/caldav/CalDavEventClient.ts:292-404 | The invariant of all reachable states from which these results follow |
| RangeQuery.CoversExactly | matrix-calendar-server/src/caldav/CalDavEventClient.ts:69-106 | An overfetch covers every event of every range, its ends shifted by any offsets below a day, exactly from 86,399,999 ms on |
| RangeQuery.OverfetchCovers | matrix-calendar-server/src/caldav/CalDavEventClient.ts:69-115 | The 32 hours used are enough, dropped milliseconds included (section 9.9 of RFC 4791) |
| DavSearch.FindPropertyStatus | matrix-calendar-server/src/caldav/CalDavDiscoveryClient.ts:787-863 | The recursive search returns the status of the first reporting element, in pre-order, of the tree of expanded names |
| DavAnswer.PropPatchPropertyStatus | matrix-calendar-server/src/caldav/CalDavDiscoveryClient.ts:773-785 | For every multistatus document a server can write, with any prefixes, declarations, attributes, white space and grouping of siblings, and for each of the three properties, the answer is the code of the first propstat that lists the property in its namespace and has a readable status line, and none if there is none; on any document, the answer belongs to an element before which none reports |
| DavAnswer.RefusalIsReported | matrix-calendar-server/src/caldav/CalDavDiscoveryClient.test.ts:809-843 | A document that reports 200 for the name and 403 for the description is read as just that |
| DavSearch.DirectElement | matrix-calendar-server/src/caldav/CalDavDiscoveryClient.ts:895-926 | Finds the first child with the expanded name, or nothing exactly when there is none |
| DavSearch.NamespaceDeclarations | matrix-calendar-server/src/caldav/CalDavDiscoveryClient.ts:865-878 | The loop computes the scope in which the expanded names are taken |
| DavSearch.ScopeAgain | matrix-calendar-server/src/caldav/CalDavDiscoveryClient.ts:787-803 | Declaring an element's namespaces a second time, as the recursion does, changes nothing |
| DavSearch.RenamingIsInvisible | matrix-calendar-server/src/caldav/CalDavDiscoveryClient.ts:787-926 | An injective renaming of prefixes, the empty one included, in declarations and names leaves every expanded name and the answer unchanged |
| DavAnswer.StatusLineRead | matrix-calendar-server/src/caldav/CalDavDiscoveryClient.ts:836-847 | A status line yields its code exactly when its reason phrase is not blank |
| DavSearch.EscapeIsPerCharacter | matrix-calendar-server/src/caldav/CalDavDiscoveryClient.ts:766-771 | The three successive replacements escape each character once |
| DavSearch.EscapedTextReadsBack | matrix-calendar-server/src/caldav/CalDavDiscoveryClient.ts:766-771 | Escaped text is character data and reads back as the text |
| PathSegment.AssertSafePathSegment | matrix-calendar-server/src/caldav/CalDavDiscoveryClient.ts:623-651 | The loop that checks every depth accepts exactly when raw escapes are well formed and at most seven decodings reach a harmless form without escapes |
| PathSpelling.DecodeMeans | matrix-calendar-server/src/caldav/CalDavDiscoveryClient.ts:643-647 | Decoding gives a text exactly when the segment spells it, each character bare or as the escaped bytes of its UTF-8 encoding in digits of either case, and fails when it spells nothing |
| PathSpelling.HarmIsRefused | matrix-calendar-server/src/caldav/CalDavDiscoveryClient.ts:623-651 | Every spelling, however deep, of two dots or of a text with a slash, a backslash, a space or a control character is refused |
| PathSpelling.HarmlessIsAccepted | matrix-calendar-server/src/caldav/CalDavDiscoveryClient.ts:623-651 | Every spelling, up to seven deep, of any other text without a percent sign is accepted |
| PathSegment.DecodeShortens | matrix-calendar-server/src/caldav/CalDavDiscoveryClient.ts:643-647 | Decoding a text with an escape removes at least two characters |
| PathSegment.OrdinaryPersists | matrix-calendar-server/src/caldav/CalDavDiscoveryClient.ts:629-637 | A character that cannot be part of an escape is still there after decoding |
| PathSegment.HarmLasts | matrix-calendar-server/src/caldav/CalDavDiscoveryClient.ts:628-648 | A harmful form stays harmful at every later depth |
| PathSegment.DepthLimitIsRemote | matrix-calendar-server/src/caldav/CalDavDiscoveryClient.ts:628-650 | Below seventeen characters the depth limit decides nothing |
| PathSegment.AssertSafeSegments | matrix-calendar-server/src/caldav/CalDavDiscoveryClient.ts:617-620 | All segments of a path are checked, so a path that passes is safe |
| PathSegment.SafeSegmentDecodes | matrix-calendar-server/src/caldav/CalDavDiscoveryClient.ts:623-674 | A checked segment decodes without error to a text that is not `..` and has no slash |
| PathSegment.PathReadsBack | matrix-calendar-server/src/caldav/CalDavDiscoveryClient.ts:662-667 | An absolute path gives its segments, with or without a slash at the end |
| PathSegment.WithinScopeMeansBelow | matrix-calendar-server/src/caldav/CalDavDiscoveryClient.ts:653-674 | For checked paths the comparison never throws and means that the decoded request continues the decoded scope at a slash |
| BoundedResponse.ReadBoundedDavResponse | matrix-calendar-server/src/caldav/BoundedDavResponse.ts:48-127 | The outcome is a function of the stated length, the delivered bytes and whether the stream fails, never of the chunking; reading stops at the first chunk too many; failures cancel |
| BoundedResponse.ReadResponseText | matrix-calendar-server/src/caldav/CalDavEventClient.ts:407-513 | The same function of the same inputs: the two readers agree on every common limit |
| BoundedResponse.Accumulator.Append | matrix-calendar-server/src/caldav/BoundedDavResponse.ts:69-80 | A chunk is kept exactly when the total stays within the limit, so what is stored never exceeds it |
| BoundedResponse.Accumulator.Gather | matrix-calendar-server/src/caldav/BoundedDavResponse.ts:100-105 | The buffer filled at a moving offset holds exactly the concatenated chunks |
| BoundedResponse.Drain | matrix-calendar-server/src/caldav/BoundedDavResponse.ts:86-96 | Draining a stream decides as the concatenation does, and reads no further than needed |
| BoundedResponse.StatedLengthMatters | matrix-calendar-server/src/caldav/BoundedDavResponse.ts:61-68 | A stated length changes the outcome exactly when it is over the limit and the body is not |
| BoundedResponse.LimitIsExact | matrix-calendar-server/src/caldav/BoundedDavResponse.ts:61-105 | With a truthful length a body is returned exactly when it is within the limit |
| BoundedResponse.BreakingOffFails | matrix-calendar-server/src/caldav/BoundedDavResponse.ts:84-99 | A stream that breaks off is never taken for a body: it fails, or is too large if what it delivered, or was said to deliver, is over the limit |
| Callback.LinesInjective | radicale-auth/src/matrix_calendar_private_client_callback.py:196-205 | A signed text determines its fields |
| Callback.RequestsAreNotResponses | radicale-auth/src/matrix_calendar_private_client_callback.py:196-205 | No request text equals a response text |
| Callback.ResponseFields | radicale-auth/src/matrix_calendar_private_client_callback.py:202-205 | Response texts are equal exactly when status, path, nonce and body hash are |
| Callback.Base64Injective | radicale-auth/src/matrix_calendar_private_client_callback.py:151-154 | Different random bytes give different nonces |
| Callback.Request | radicale-auth/src/matrix_calendar_private_client_callback.py:145-186 | When a request is sent and what it signs; which answers are believed |
| Callback.MessageTexts | radicale-auth/src/matrix_calendar_private_client_callback.py:196-205 | The signed texts line by line |
| Callback.GenuineAnswerIsBelieved | radicale-auth/src/matrix_calendar_private_client_callback.py:145-186 | The answer the server gives to a call, delivered as signed, is believed |
| Callback.BeliefIsJustified | radicale-auth/src/matrix_calendar_private_client_callback.py:145-205 | In every run, with any delay, repetition or exchange of answers, a believed body is the server's answer to the very request this call sent |
| Callback.RequestIsAsked | matrix-calendar-server/src/service/private-client/PrivateCalendarClientCallbackGateway.ts:150-160 | A request the server finds signed was sent by a call with this path, nonce and body |
| Callback.AdmissionIsJustified | radicale-auth/src/matrix_calendar_private_client_callback.py:132-134 | A call that admits a user was told so by the server about that request |
| Callback.AllowedExactly | radicale-auth/src/matrix_calendar_private_client_callback.py:132-134 | Only the object with the single member `allowed: true` admits; repeated or extra members do not |
| Callback.GrantedExactly | radicale-auth/src/matrix_calendar_private_client_callback.py:136-143 | Rights are granted exactly for the object with the single member and a known value |
| Callback.RejectDuplicateJsonKeys | radicale-auth/src/matrix_calendar_private_client_callback.py:56-62 | The loop keeps every member or refuses a repeated key |
| ReplayCache.CallbackReplayCache.Consume | matrix-calendar-server/src/service/private-client/PrivateCalendarClientCallbackGateway.ts:54-68 | Cleans up when due, then takes a nonce exactly when it is not remembered and there is room |
| ReplayCache.CallbackReplayCache.Cleanup | matrix-calendar-server/src/service/private-client/PrivateCalendarClientCallbackGateway.ts:70-78 | The loop removes exactly the expired nonces, at most once an interval |
| ReplayCache.NonceStays | matrix-calendar-server/src/service/private-client/PrivateCalendarClientCallbackGateway.ts:54-78 | Until it expires a nonce stays remembered, whatever calls come in the order of time |
| ReplayCache.ServedAtMostOnceExactly | matrix-calendar-server/src/service/private-client/PrivateCalendarClientCallbackGateway.ts:139-164 | A request first served at a time can never be served again exactly when that time is past the first second in which its timestamp is acceptable |
| ContractCleanup.Run.Cleanup | dev/operator-postgres-contract.py:362-417 | Never stops or removes what is not recorded and labelled as this run's; no errors means nothing with the owner label is left, however earlier calls failed; from calm on, no errors exactly when no recorded name is held by another owner |
| ContractCleanup.Run.CreateTrackedContainer | dev/operator-postgres-contract.py:262-264 | Wherever the create fails, everything carrying the owner label is recorded |
| ContractCleanup.Run.CreateTrackedVolume | dev/operator-postgres-contract.py:230-232 | The same for volumes, whose creation may find one that exists |
| ContractCleanup.Run.RemoveContainer | dev/operator-postgres-contract.py:364-383 | Touches one container at most, and only with the expected labels |
| ContractCleanup.Run.VerifyBaseline | dev/operator-postgres-contract.py:406-416 | Passes only when nothing is owned, and, with truthful inspections, no recorded name is left |
| ContractCleanup.ImpostorMore | dev/operator-postgres-contract.py:364-383 | Removing some recorded containers neither hides nor creates a foreign holder of another recorded name |
| ContractCleanup.NothingLeft | dev/operator-postgres-contract.py:406-416 | When everything owned is recorded and no recorded name is foreign, clearing leaves nothing to report |

## Left out

- Release.PutBackOverForeignEdit: speaks of one step; no whole run that ends rolled back over a foreign text is constructed, `ReleaseRun.Runner.Transaction` only says when exactly one does.
- ReplayCache.ServedAtMostOnceExactly: the clock does not go back, and the request's signature is valid each time.
- ReleaseRecord.RecordAfterIncomplete: says which record each pattern of failed writes leaves; no run exhibiting each pattern is constructed.
- Release.Host.AtomicReplace: the temporary file, its mode and owner, and its removal on failure are one fallible step; creating and removing directories, unlinking and closing are taken as atomic and infallible.
- ReleaseRun.Runner.Transaction: signals and kills inside a run appear only as a run that dies in `ReleaseProtocol`; the seven path fields and the project name are one flag.
- ReleaseModel.CheckSavedImageTags: archive members start from their parsed JSON; the archive format is not modelled.
- The `status` action of the release script: it only reports.
- StableJson.StableJsonIsFaithful: numbers are their shortest decimal texts; NaN, infinities, negative zero and lone surrogates are outside the model, as is the difference between UTF-16 and scalar order.
- TimezoneProjection.HasUnsupportedTimezoneRules: bundled definitions arrive as parsed components; how `ical.js` parses them is not modelled.
- HeaderScan.ParseContentLine: lower-casing is ASCII only.
- ConditionalAccess.OutcomesAreHonest: replies to reads carry the current version or nothing; connection handling, abort signals and the exact error texts are not modelled.
- RangeQuery.CoversExactly: dates are instants in milliseconds; parsing and the four-digit year of the rendered text are not modelled.
- DavSearch.FindPropertyStatus: documents arrive as parsed trees with same-named siblings grouped; prefixes named like members of `Object.prototype` are not modelled. A target namespace is never empty, as with all three the client asks for.
- PathSegment.WithinScopeMeansBelow: URL parsing and normalisation come before and are not modelled; the checks on scheme, authority and raw text (assertSafeRawHref) would add easy members.
- BoundedResponse.ReadBoundedDavResponse: bytes are returned undecoded; chunks that are neither bytes nor text, limits that are not integers, abort signals and failures of the cancellation itself are not modelled.
- Callback.BeliefIsJustified: the MAC is ideal and the hash free of collisions; the server's clock check and nonce cache are not part of this state machine but of `ReplayCache`, so here a call may get any of the server's answers to its request.
- Callback.Rights: it raises on a list or an object, which the code would look up in a set; the server never sends one.
- ContractCleanup.Run.Cleanup: nobody else changes containers or volumes while it runs, and a create that takes effect only after the clean-up is not seen; listings that succeed are truthful; removal of the secret directory is an input.
- The listing of calendar events with its diagnostic counts, `successfulProperties`, `readOnlyValue`, recurrence projection, the event codec and bindings: filters, counters and field mappings that would add only easy members, or code outside these components.
- The React widget, the NestJS wiring, configuration, internationalisation and the browser journeys: user interface and plumbing.
