# Subversion checkout and update drivers, modelled in Dafny

This project models how an early Subversion client (the 0.x series) drives
a *delta editor*: the callback table (`open_root`, `add_directory`,
`add_file`, `apply_textdelta`, `change_*_prop`, `close_*`, `close_edit`, ...)
through which a working copy is built or updated. Three drivers are
modelled:

- **ra_local checkout** (`libsvn_ra_local/checkout.c`) walks a revision
  of the local filesystem. It opens the root, sends each node's properties
  merged with the three entry properties (committed revision, date and
  last author), adds subdirectories and files, streams each file's text
  as a delta, and closes everything.
- **ra_dav checkout** (`libsvn_ra_dav/fetch.c`, `svn_ra_dav__do_checkout`)
  explores the server's collections with PROPFIND requests. It keeps an
  explicit stack of pending collections and close sentinels, fetches
  properties and stores version URLs as working-copy properties, and GETs
  each file's text.
- **ra_dav update report** (`libsvn_ra_dav/fetch.c`). The reporter writes
  an XML REPORT body describing the working copy. The server's answer is
  parsed by an element-validation table and start/end handlers that keep
  a stack of directory items and turn the elements into editor calls.

Every driver is a pure function from its inputs to a trace
`Out(calls, err)`:

- `calls` lists the editor calls and network requests in order; `err` is
  the first error.
- The editor is a parameter that decides which calls fail. The baton an
  opening call returns is that call's index in the trace.
- The editor's calling contract is an executable checker, `DeltaEditor.Replay`,
  which tracks the stack of open directories, the one open file, whether a
  delta stream is open, and whether the edit has ended. It also tracks
  whether `set_target_revision` and `open_root` have been called. Each is
  accepted at most once, the target revision only before the root, and
  `close_edit` only once the root has been opened.
- `close_file` while the file's delta stream is still open abandons the
  stream, as `fetch_file` does when the GET fails (`goto error`). The
  contract accepts that `close_file`, but counts the edit as over: it
  accepts no call after it.

The main theorems:

- No driver ever makes a call the contract rejects. For the update
  report this holds when the response's `update-report` element has at
  most one `target-revision` child followed by exactly one
  `open-directory` child. The element table admits other shapes, and
  "## Findings" shows two of them breaking the contract. A corrected
  parse (`ReportParser.StepRooted`, `ReportParser.FinishReportRooted`)
  refuses those shapes and keeps the contract on every response.
- A driver that succeeds has made a complete edit: every directory and
  file it opened is closed, and `close_edit` comes last.

Modules:

| module | models |
|---|---|
| `SvnTypes` | results and errors, revision numbers, `"%ld"` formatting and `SVN_STR_TO_REV` parsing |
| `DeltaEditor` | editor calls, the failure oracle, the contract checker |
| `DavProps` | `set_special_wc_prop`, `add_props`, the DAV property-name mapping |
| `FileFetch` | `custom_get_request`, `fetch_file_reader`, `simple_fetch_file` |
| `DavCheckout` | `my_basename`, `store_vsn_url`, `fetch_dirents`, `fetch_file`, `svn_ra_dav__do_checkout` |
| `LocalCheckout` | `send_file_contents`, `set_any_props`, `walk_tree`, `svn_ra_local__checkout` |
| `ReportBody` | `make_reporter`, `reporter_set_path`, `reporter_delete_path`, `finish_report`'s body |
| `ReportGrammar` | the `report_elements` table, `validate_element`, `get_attr` |
| `ReportParser` | `start_element`, `add_node_props`, `end_element`, the parse loop, and the corrected parse |
| `ReportSteps` | what each handler does to the directory stack and the trace |
| `ReportProofs` | the parser's invariant and the end-to-end theorems |

## Model

| member | source | states |
|---|---|---|
| SvnTypes.RevToStringRoundTrip | subversion/libsvn_ra_local/checkout.c:97-100 | reading back the `"%ld"` text of any revision number, negative ones included, gives the number again |
| SvnTypes.DecimalReadsBack | subversion/libsvn_ra_dav/fetch.c:1240 | the rev attribute parser reads the decimal text of a natural number back as that number |
| SvnTypes.NegativeReadsBack | subversion/libsvn_ra_dav/fetch.c:1304 | a minus sign followed by decimal digits is read as the negated number |
| DeltaEditor.CompleteIsBalanced | subversion/libsvn_ra_dav/fetch.c:905-962 | in a complete edit session, directories opened equal directories closed, files opened equal files closed, the root is opened exactly once and the target revision set at most once |
| DeltaEditor.ReplayCountsRoots | subversion/libsvn_ra_dav/fetch.c:1230-1246 | an accepted trace has at most one open_root and at most one set_target_revision, and no set_target_revision after an open_root |
| DeltaEditor.CloseFileStep | subversion/libsvn_ra_dav/fetch.c:655-676 | close_file on the open file closes it; if its delta stream was still open, the stream is abandoned and the edit counts as over |
| DeltaEditor.ReplayCountsOpens | subversion/libsvn_ra_dav/fetch.c:1475-1505 | in any accepted trace, opens = closes + still-open, for directories and for the file |
| DeltaEditor.ReplayRejectionSticks | subversion/libsvn_ra_dav/fetch.c:1480 | once the contract rejects a call, no continuation makes the trace acceptable |
| DeltaEditor.OpenSessionHasNoCloseEdit | subversion/libsvn_ra_dav/fetch.c:1692 | an accepted session that has not ended contains no close_edit |
| DeltaEditor.NothingAfterCloseEdit | subversion/libsvn_ra_dav/fetch.c:1692 | after close_edit the contract accepts no call at all |
| DavProps.SpecialWcPropValues | subversion/libsvn_ra_dav/fetch.c:246-275 | version-name, creationdate and creator-displayname are stored as committed-rev, committed-date and last-author |
| DavProps.SpecialWcPropIsBijection | subversion/libsvn_ra_dav/fetch.c:246-275 | only the three DAV live properties map to an entry property; the mapping is one-to-one and covers all three entry properties |
| DavProps.AddPropNameRecoversNames | subversion/libsvn_ra_dav/fetch.c:278-341 | user properties keep their name through the custom namespace; svn: properties keep theirs except baseline-relative-path; other names map as live properties or are dropped |
| DavProps.AddPropsSetsMappedProperties | subversion/libsvn_ra_dav/fetch.c:278-341 | add_props sets every mappable property with its value on the bound node, makes no other call, and ignores setter errors |
| DavProps.EnumerateCovers | subversion/libsvn_ra_dav/fetch.c:296-338 | iterating over a property hash visits every key |
| DavProps.PropCallsKeepContract | subversion/libsvn_ra_dav/fetch.c:278-341 | property calls on a node the contract lets be modified leave the contract's state unchanged |
| FileFetch.ReaderStopsAfterError | subversion/libsvn_ra_dav/fetch.c:511-521 | once the reader has recorded an error, it drops the rest of the body |
| FileFetch.ContentTypeCheckedOnce | subversion/libsvn_ra_dav/fetch.c:529-543 | the Content-Type is read on the first non-empty chunk and the choice of svndiff or plain text never changes after that |
| FileFetch.PlainTextWindows | subversion/libsvn_ra_dav/fetch.c:523-568 | a plain-text body gives one new-data window per non-empty chunk, in order; empty chunks give nothing |
| FileFetch.PlainWindowsCarryBody | subversion/libsvn_ra_dav/fetch.c:545-568 | the windows' new data, concatenated, is exactly the response body |
| FileFetch.PlainFetchTrace | subversion/libsvn_ra_dav/fetch.c:598-638 | a successful plain-text fetch makes apply_textdelta, the GET, the body windows and the empty window, and inserts exactly the body |
| FileFetch.NoTextDeltasSendsOnlyClose | subversion/libsvn_ra_dav/fetch.c:622-626 | without text deltas, the handler receives only the empty window and no request is made |
| FileFetch.FetchErrorKinds | subversion/libsvn_ra_dav/fetch.c:476-501 | a fetch fails only with an editor error, a transport error on the URL, or an HTTP status other than 200 and 226; the body reader is registered for 2xx responses only, so under any other status no window reaches the editor, the GET is the last call and the status is the error |
| FileFetch.ReaderKeepsContract | subversion/libsvn_ra_dav/fetch.c:545-595 | every window the reader sends lands in the open delta stream |
| FileFetch.FetchKeepsContract | subversion/libsvn_ra_dav/fetch.c:598-638 | fetching into the open file keeps the contract, and on success the delta stream is closed again |
| DavCheckout.BasenameIsLastComponent | subversion/libsvn_ra_dav/fetch.c:178-182 | the basename is the last slash-free component of the URL once its trailing slashes are dropped |
| DavCheckout.BasenameOfChild | subversion/libsvn_ra_dav/fetch.c:178-182 | a child's URL, with or without a trailing slash, yields the name the child was added under |
| DavCheckout.DirentsAreFilters | subversion/libsvn_ra_dav/fetch.c:388-423 | a successful listing pushes exactly the subcollections other than the directory itself, in order (nothing without recursion), and collects exactly the non-collections |
| DavCheckout.SubcollectionsMembers | subversion/libsvn_ra_dav/fetch.c:398-415 | a collection is pushed exactly when it is listed and is not the directory itself |
| DavCheckout.NoRecursionPushesNothing | subversion/libsvn_ra_dav/fetch.c:407-415 | without recursion, fetch_dirents pushes no subdirectory |
| DavCheckout.DirentsKeepContract | subversion/libsvn_ra_dav/fetch.c:398-404 | storing the directory's version URL keeps the contract's state |
| DavCheckout.FetchFileClosesFile | subversion/libsvn_ra_dav/fetch.c:640-679 | fetch_file adds the file first; a failed add ends it at once; after a successful add, close_file is the last call whatever failed in between |
| DavCheckout.VisitStoresActivityUrl | subversion/libsvn_ra_dav/fetch.c:989-1018 | a successful visit has fetched the directory's properties, listed its entries, and stored the activity URL on it |
| DavCheckout.NonRecursiveCheckoutVisitsOnlyRoot | subversion/libsvn_ra_dav/fetch.c:1006-1009 | a non-recursive checkout visits the root collection only |
| DavCheckout.VisitKeepsContract | subversion/libsvn_ra_dav/fetch.c:971-1032 | one visit keeps the contract; on success the visited directory is the innermost open one, and what it pushed are well-formed children of it |
| DavCheckout.DriveKeepsContract | subversion/libsvn_ra_dav/fetch.c:934-1037 | the stack loop keeps the contract whenever the stack's sentinels are the open directories; on success it closes all of them and then the edit |
| DavCheckout.RootVisitedKeepsContract | subversion/libsvn_ra_dav/fetch.c:934-1042 | once the root is visited, with the target set and only the root open, the rest of the loop keeps the contract; on success the edit is complete and ends with close_edit |
| DavCheckout.CheckoutKeepsContract | subversion/libsvn_ra_dav/fetch.c:873-1050 | a checkout never breaks the contract; a successful one is complete, ends with close_edit, opens the root exactly once, and closes every directory and file it opens |
| LocalCheckout.SendContentsTrace | subversion/libsvn_ra_local/checkout.c:30-60 | send_file_contents makes apply_textdelta, the stream's windows and the empty window, in order, until one fails; an unreadable file fails before any call |
| LocalCheckout.SendContentsKeepsContract | subversion/libsvn_ra_local/checkout.c:30-60 | the file's delta stream is opened and closed again, and the file stays open |
| LocalCheckout.EntryPropsRecordCommitInfo | subversion/libsvn_ra_local/checkout.c:92-106 | the merged properties always hold the committed revision as `"%ld"` text, and hold the date and author exactly when the revision has them |
| LocalCheckout.EntryPropsKeepUserProps | subversion/libsvn_ra_local/checkout.c:81-106 | every property other than the three entry properties is sent unchanged; none is added or dropped |
| LocalCheckout.SetterCallsRebuild | subversion/libsvn_ra_local/checkout.c:110-125 | applying the setter calls for a hash, in any iteration order, overlays the hash on the node's properties |
| LocalCheckout.SendPropsTrace | subversion/libsvn_ra_local/checkout.c:110-125 | the setter loop succeeds exactly when none of its calls fails; on failure it stops at the failing call |
| LocalCheckout.SetAnyPropsSendsEntryProps | subversion/libsvn_ra_local/checkout.c:66-128 | set_any_props fails with a filesystem error when properties or commit info cannot be read; on success it sets exactly the merged properties on the node |
| LocalCheckout.SetAnyPropsTrace | subversion/libsvn_ra_local/checkout.c:66-128 | the setter calls are made in order until one fails |
| LocalCheckout.SetAnyPropsKeepsContract | subversion/libsvn_ra_local/checkout.c:66-128 | property calls stay within the contract and stop at the first failure |
| LocalCheckout.AddFileEntryTrace | subversion/libsvn_ra_local/checkout.c:210-222 | the file branch makes add_file with the file's URL as copy source, then the merged properties, the delta stream and close_file; a failure cuts the sequence short |
| LocalCheckout.FillFileKeepsContract | subversion/libsvn_ra_local/checkout.c:210-222 | after add_file the branch keeps the contract and, on success, closes the file |
| LocalCheckout.WalkTreeKeepsContract | subversion/libsvn_ra_local/checkout.c:146-242 | walk_tree stays within the contract and stops at the first failure; on success every directory it opened below dir is closed before dir, which is closed last |
| LocalCheckout.NonRecursiveWalkIsFlat | subversion/libsvn_ra_local/checkout.c:191-228 | without recursion, no subdirectory is added or entered: only files directly under dir, and dir's own close |
| LocalCheckout.WalkTreeSucceeds | subversion/libsvn_ra_local/checkout.c:164-232 | the walk succeeds only if every node it queries is readable, and always does when they are and the editor accepts every call |
| LocalCheckout.OpenEditKeepsContract | subversion/libsvn_ra_local/checkout.c:260-265 | the session starts with set_target_revision and then open_root with an invalid base revision |
| LocalCheckout.DriveRootKeepsContract | subversion/libsvn_ra_local/checkout.c:267-273 | with the root open, the rest of the drive stays within the contract; on success it closes the root and then the edit |
| LocalCheckout.CheckoutKeepsContract | subversion/libsvn_ra_local/checkout.c:247-276 | a checkout stays within the contract and stops at the first failure; a successful one is a complete session that opens with set_target_revision and open_root |
| LocalCheckout.CheckoutIsBalanced | subversion/libsvn_ra_local/checkout.c:247-276 | a successful checkout closes every directory and file it opens |
| LocalCheckout.CheckoutSucceeds | subversion/libsvn_ra_local/checkout.c:247-276 | a checkout succeeds only if the revision root and every node queried are readable, and always does when they are and the editor accepts every call |
| ReportBody.BodyRoundTrip | subversion/libsvn_ra_dav/fetch.c:1569-1619 | a server reading a reporter session's body recovers the request (an invalid revision as "latest") and every reported path and revision, in call order |
| ReportBody.ReadItemsRoundTrip | subversion/libsvn_ra_dav/fetch.c:1578-1581 | elements with no markup in their data are read back one for one |
| ReportBody.InterpretOpsRoundTrip | subversion/libsvn_ra_dav/fetch.c:1596-1607 | escaped entry and missing elements read back as the set_path and delete_path calls that wrote them |
| ReportBody.HeaderInterpretation | subversion/libsvn_ra_dav/fetch.c:1763-1822 | the header elements read back as the target revision, update target, switch path and recursion flag they were written for |
| ReportBody.UnescapedTargetBreaksBody | subversion/libsvn_ra_dav/fetch.c:1781-1783 | the header as written leaves the target "<" unescaped, and the resulting body cannot be read |
| ReportBody.BareTargetUnreadable | subversion/libsvn_ra_dav/fetch.c:1781-1783 | an update-target element whose text is a bare '<' does not parse |
| ReportBody.ReadElemRoundTrip | subversion/libsvn_ra_dav/fetch.c:1767-1816 | an element whose text holds no '<' reads back as that text and the rest of the body |
| ReportGrammar.LookupNamesExactly | subversion/libsvn_ra_dav/fetch.c:149-172 | an element is named by its table name, and open-directory and open-file also by their replace- names, and by nothing else |
| ReportGrammar.UnknownNeverValid | subversion/libsvn_ra_dav/fetch.c:1108-1193 | an unknown element, or the root, is never valid |
| ReportGrammar.FileInteriorClosed | subversion/libsvn_ra_dav/fetch.c:1108-1193 | no directory or file element is valid inside a file element |
| ReportGrammar.StructuralParents | subversion/libsvn_ra_dav/fetch.c:1108-1193 | directory elements sit under the report or another directory; the report sits only at the root; the report's only node child is open-directory |
| ReportGrammar.ReportChildren | subversion/libsvn_ra_dav/fetch.c:1126-1131 | update-report admits only target-revision and open-directory children |
| ReportGrammar.FileParents | subversion/libsvn_ra_dav/fetch.c:1108-1193 | a file element sits directly in a directory element |
| ReportGrammar.AddedSubtreesOnlyAdd | subversion/libsvn_ra_dav/fetch.c:1108-1193 | inside an added directory or file, nothing is opened as existing |
| ReportGrammar.GetAttrFindsFirst | subversion/libsvn_ra_dav/fetch.c:1195-1201 | get_attr answers "none" exactly when no attribute has the name, and otherwise the value of the first one that does |
| ReportSteps.OpenDirectoryPushesOneFrame | subversion/libsvn_ra_dav/fetch.c:1237-1269 | open-directory pushes one frame: the root with path "." when the stack is empty, otherwise a subdirectory whose path extends its parent's by the name |
| ReportSteps.AddDirectoryPushesOneFrame | subversion/libsvn_ra_dav/fetch.c:1270-1300 | add-directory pushes one frame, whose properties are always fetched, and passes the copy source on as the server sent it |
| ReportSteps.DirectoryEndPopsOneFrame | subversion/libsvn_ra_dav/fetch.c:1471-1482 | a directory end closes the innermost directory as its last call and pops exactly that frame |
| ReportSteps.DirectoryElementRestoresStack | subversion/libsvn_ra_dav/fetch.c:1237-1482 | the frame a directory start pushes is the one its end pops, so the stack returns to what it was |
| ReportSteps.OpenFileExtendsPath | subversion/libsvn_ra_dav/fetch.c:1301-1321 | open-file opens a file in the innermost directory, extends that directory's path by the name, and does not mark the file for property fetching |
| ReportSteps.AddFileExtendsPath | subversion/libsvn_ra_dav/fetch.c:1322-1349 | add-file adds a file to the innermost directory, extends that directory's path by the name, and marks the file for property fetching |
| ReportSteps.FileEndShortensPath | subversion/libsvn_ra_dav/fetch.c:1484-1510 | a file end closes the file as its last call, leaves no file open, and removes the name from the path |
| ReportSteps.FileElementRestoresPaths | subversion/libsvn_ra_dav/fetch.c:1301-1510 | a file element leaves every directory's path and baton as it found them |
| ReportSteps.FetchPropsMarksCurrentNode | subversion/libsvn_ra_dav/fetch.c:1362-1385 | in a status report fetch-props unsets svn:BOGOSITY and ignores the result; otherwise it only marks the current node |
| ReportSteps.RemovePropIgnoresEditorErrors | subversion/libsvn_ra_dav/fetch.c:1350-1361 | remove-prop unsets the named property on the current node and continues whatever the editor answers |
| ReportSteps.DeleteEntryPropagatesEditorErrors | subversion/libsvn_ra_dav/fetch.c:1397-1405 | delete-entry deletes the name in the innermost directory, and the parse stops exactly when the editor fails |
| ReportSteps.AddNodePropsOnlyWhenMarked | subversion/libsvn_ra_dav/fetch.c:1416-1460 | properties are requested exactly when content is fetched and the node is marked: a file from the last href, a directory from its version URL |
| ReportSteps.HrefStoresVersionUrl | subversion/libsvn_ra_dav/fetch.c:1512-1538 | an href is ignored in a status report; otherwise the path part `svn_ra_dav__copy_href` keeps of it becomes the current href and the node's version-URL property, and a directory also remembers it |
| ReportSteps.LivePropsBecomeEntryProps | subversion/libsvn_ra_dav/fetch.c:1540-1559 | the three live-property elements set the matching entry property of the current node to their text |
| ReportProofs.StepKept | subversion/libsvn_ra_dav/fetch.c:1214-1566 | every parser event keeps the invariant, with the phase (target set, root opened) advanced by the event: the element chain, the directory stack and the trace agree, and the trace is accepted; the element depth moves by one |
| ReportProofs.PhaseStep | subversion/libsvn_ra_dav/fetch.c:1126-1131 | when the update-report children still to come fit the phase, a start tag the table admits never sets the target twice or after the root and never opens a second root, and the children after it fit the next phase |
| ReportProofs.RunKept | subversion/libsvn_ra_dav/fetch.c:1676-1680 | parsing a sequence of events whose update-report children fit the phase keeps the invariant, and ends with the root opened |
| ReportProofs.ReportNeverBreaksContract | subversion/libsvn_ra_dav/fetch.c:1632-1698 | for a response whose update-report holds at most one target-revision and then exactly one open-directory, whatever else it holds and whichever editor calls fail, the report never makes a call the contract forbids and never acts without an open node |
| ReportProofs.SuccessfulReportIsComplete | subversion/libsvn_ra_dav/fetch.c:1685-1692 | for such a response, a report that parses without error drives a complete edit, ending with close_edit, that opens the root once and closes every directory and file it opens |
| ReportProofs.TwoRootsAdmitted | subversion/libsvn_ra_dav/fetch.c:1126-1131 | the table admits open-directory under update-report, and a response with two such children, one after the other, passes it |
| ReportProofs.SecondRootRejected | subversion/libsvn_ra_dav/fetch.c:1240-1246 | the contract rejects an open_root after the first root has been closed |
| ReportProofs.TwoRootsBreakContract | subversion/libsvn_ra_dav/fetch.c:1240-1246 | with two open-directory children of update-report, the parser opens the root a second time and the edit breaks the contract |
| ReportProofs.EmptyReportBreaksContract | subversion/libsvn_ra_dav/fetch.c:1685-1692 | an update-report with no children drives close_edit with no root opened, which the contract rejects |
| ReportProofs.RootedReportKeepsContract | subversion/libsvn_ra_dav/fetch.c:1685-1692 | with a second root or a late target-revision refused and close_edit held back until the root is open, every response keeps the contract, and a successful one is a complete edit that opens the root once |
| ReportProofs.RunRootedKept | subversion/libsvn_ra_dav/fetch.c:1126-1131 | the parse with a second root and a repeated or late target-revision refused keeps the parser's invariant and the contract on every event sequence |
| ReportProofs.RunRootedAgrees | subversion/libsvn_ra_dav/fetch.c:1240-1246 | on update-report children that open the root at most once, after at most one target-revision, the corrected parse ends in the same state as the source's |
| ReportProofs.RootedFinishAgrees | subversion/libsvn_ra_dav/fetch.c:1685-1692 | for a response with exactly one root the corrected finish and the source's finish give the same trace and result |
| ReportProofs.EmptyReportRefused | subversion/libsvn_ra_dav/fetch.c:1685-1692 | the corrected finish refuses the update-report with no children without any editor call |
| ReportProofs.CloseRootedEdit | subversion/libsvn_ra_dav/fetch.c:1690-1692 | close_edit after an opened root with nothing else open completes the edit, with exactly one open_root |

## Left out

- HTTP, neon and the XML tokenizer are not modelled. Requests are trace
  entries, and their answers are inputs: property maps, listings and GET
  responses per URL. The parser's input is a sequence of start/end events.
- svndiff decoding (`svn_txdelta_parse_svndiff`) is not part of this
  model. An svndiff body is passed to the editor opaquely, chunk by
  chunk, and any failure while decoding it is not modelled.
- Filesystem reads in ra_local (`svn_fs_node_proplist`,
  `svn_repos_get_committed_info`, `svn_fs_file_contents`,
  `svn_fs_dir_entries`, `svn_fs_is_dir`) are modelled as values that are
  present or missing. A missing one is `FsError`.
- `svn_txdelta_send_stream` is modelled as a sequence of windows. Their
  split is an input.
- Hash iteration order is unspecified in APR. Property hashes are
  enumerated by `DavProps.Enumerate`, an arbitrary fixed order.
  Directory listings are sequences in the order given.
- `uri_compare` is modelled as string equality.
- ReportSteps.HrefStoresVersionUrl: `svn_ra_dav__copy_href` keeps the
  path part of an href by running neon's URI parser. Neither is part of
  this model, so the path kept is a parameter of the environment
  (`Env.hrefPath`) and nothing is promised about its value.
- `svn_path_basename` and `svn_path_remove_component` are not part of
  this model. They are modelled as taking, or removing, the last
  component of a path.
- `begin_checkout` and the baseline lookup are inputs to the DAV
  checkout.
- `svn_ra_dav__maybe_store_auth_info` and the `get_wc_prop` callback are
  not modelled. So neither is `get_delta_base`.
- `custom_get_request` cannot fail to create its request in the model.
- Pools and memory are not modelled.
- neon's reaction to `NE_XML_DECLINE` is not visible. The model treats a
  declined element like an invalid one and stops the parse.
- A missing XML attribute makes the source dereference NULL. The model
  records a `MissingAttribute` error instead.
- The `assert: rb->href->len > 0` comment of fetch-file is not enforced.
  An empty href is fetched like any other.
- `DEBUG_CR` is modelled as a newline.
- The reporter's temporary-file writes cannot fail in the model. Neither
  can `reporter_abort_report`, which only closes the file.
- ReportProofs.ReportNeverBreaksContract: requires the response's
  update-report children to be at most one target-revision and then
  exactly one open-directory, because the parser as written breaks the
  contract for other shapes the table admits (see "## Findings").
  ReportProofs.SuccessfulReportIsComplete carries the same requirement.
- ReportSteps.AddNodePropsOnlyWhenMarked: a directory can be marked for a
  property fetch before its href has arrived. The source then passes a
  NULL version URL to `svn_ra_dav__get_props_resource` (fetch.c lines
  1446-1451). That function is not part of this model, so the model
  stops with a `NoVersionUrl` error instead.
- FileFetch.PlainFetchTrace: the GET is recorded with the URL as given.
  The source first URI-encodes it with `svn_path_uri_encode` (fetch.c
  lines 612-614). That function is not part of this model.
- svn_xml_escape_nts is not part of this model. Escaping is any function
  with an inverse on its image (`EscapeOk`).
- DavCheckout.CheckoutKeepsContract: assumes a well-formed server, one
  whose subcollection URLs are longer than the checkout root's. The
  source relies on this to tell the root from its subdirectories.
- The local walk is modelled as the code writes it. `walk_tree` calls
  itself; only the DAV driver keeps an explicit stack. Without
  recursion a subdirectory entry is skipped altogether: the
  `is_dir && recurse` test fails, and the entry is not a file. The file
  text goes out as whatever windows `svn_txdelta_send_stream` makes, not
  necessarily as one.

## Findings

| source | as written | input that shows it | evidently intended | confidence | as-written member | corrected member |
|---|---|---|---|---|---|---|
| subversion/libsvn_ra_dav/fetch.c:1126-1131 | validate_element admits any number of open-directory children of update-report, and start_element opens the root whenever no directory is open | an update-report with two empty open-directory children | the edit opens its root once: a second root is refused | not executed | ReportProofs.TwoRootsBreakContract | ReportProofs.RootedReportKeepsContract |
| subversion/libsvn_ra_dav/fetch.c:1685-1692 | finish_report calls close_edit after any parse that ended without error, including one that never opened the root | an update-report with no children | close_edit follows an opened root: a report without one is refused | not executed | ReportProofs.EmptyReportBreaksContract | ReportProofs.EmptyReportRefused |
| subversion/libsvn_ra_dav/fetch.c:1781-1783 | the update target is written into the REPORT body without XML escaping, unlike the switch path (1800) and every reported path (1578, 1604) | a target of `<` | the target is escaped like every other path in the body, so the body reads back | not executed | ReportBody.UnescapedTargetBreaksBody | ReportBody.BodyRoundTrip |
