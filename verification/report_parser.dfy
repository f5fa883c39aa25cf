/** The update-report parser: the start- and end-element handlers that turn
    the server's REPORT response into editor calls, driven by a stream of
    XML events. The parser keeps a stack of directory items (one per open
    directory element: its baton, whether its properties are to be fetched,
    its version URL, and its path), the baton of the one open file with that
    file's fetch-props flag, and the last href seen. A handler that meets an
    error records it and the parse stops.

    The server's answers to the PROPFIND and GET requests the parser makes
    are part of the environment, looked up by URL. */
module ReportParser {
  import opened SvnTypes
  import opened DeltaEditor
  import opened DavProps
  import opened FileFetch
  import opened ReportGrammar

  /** dir_item_t */
  datatype DirItem = DirItem(baton: Baton, fetchProps: bool, vsnUrl: Option<string>, path: Path)

  /** The parse state: the open elements, innermost last (the parser
      library's stack); whether the document element has been closed; and
      the report baton's directory stack, file baton, file fetch-props flag,
      href and trace. */
  datatype Report = Report(elems: seq<Elem>, closed: bool, dirs: seq<DirItem>, fileBaton: Option<Baton>,
                           fetchProps: bool, href: string, out: Out)

  /** A start tag with its attributes in document order, or an end tag with
      the character data of the element it closes. */
  datatype Event = StartElem(ns: string, name: string, atts: seq<(string, string)>) | EndElem(cdata: string)

  /** The editor; whether content is fetched (an update or switch) or only
      changes are reported (a status check); the properties the server
      returns for each URL; its answer to a GET of each URL; and the path
      part svn_ra_dav__copy_href keeps of an href (it runs neon's URI
      parser, which is not part of this model, so it is a parameter). */
  datatype Env = Env(ed: Editor, fetchContent: bool, props: map<string, PropMap>, gets: map<string, GetResponse>,
                     hrefPath: string -> string)

  const Init: Report := Report([], false, [], None, false, "", Start)

  function Response(env: Env, url: string): GetResponse {
    if url in env.gets then env.gets[url] else NoResponse
  }

  /** The path of the root directory of the report. */
  const RootPath: Path := ["."]

  function SetTop(dirs: seq<DirItem>, d: DirItem): seq<DirItem>
    requires |dirs| > 0
  {
    DropLast(dirs) + [d]
  }

  /** svn_path_remove_component */
  function RemoveComponent(p: Path): Path {
    if p == [] then [] else DropLast(p)
  }

  /** The copyfrom attributes of an add element: none, or a path with its
      revision; None when the path comes without a revision. The path is
      kept as the attribute's text, one component. */
  function ReadCopyfrom(atts: seq<(string, string)>): Option<(Option<Path>, int)> {
    match GetAttr(atts, "copyfrom-path")
    case None => Some((None, InvalidRevnum))
    case Some(p) =>
      match GetAttr(atts, "copyfrom-rev")
      case None => None
      case Some(r) => Some((Some([p]), StrToRev(r)))
  }

  /** Keep the state a handler computed only when its editor call succeeded. */
  function Commit(st: Report, o: Out, st': Report): Report {
    if o.err.Some? then st.(out := o) else st'.(out := o)
  }

  function Stop(st: Report, e: Error): Report {
    st.(out := Fail(st.out, e))
  }

  /** The node a property change goes to: the open file, else the innermost
      directory. */
  function CurrentTarget(st: Report): Option<Target> {
    if st.fileBaton.Some? then Some(FileTarget(st.fileBaton.value))
    else if st.dirs != [] then Some(DirTarget(Last(st.dirs).baton))
    else None
  }

  // ---------------------------------------------------------------------
  // start_element
  // ---------------------------------------------------------------------

  function StartElement(env: Env, st: Report, e: Elem, atts: seq<(string, string)>): Report
    requires st.out.err.None?
  {
    match e
    case TargetRevision =>
      (match GetAttr(atts, "rev")
       case None => Stop(st, MissingAttribute("rev"))
       case Some(a) => st.(out := Invoke(env.ed, st.out, SetTargetRevision(StrToRev(a)))))
    case OpenDirectory => StartOpenDirectory(env, st, atts)
    case AddDirectory => StartAddDirectory(env, st, atts)
    case OpenFile => StartOpenFile(env, st, atts)
    case AddFile => StartAddFile(env, st, atts)
    case RemoveProp =>
      (match GetAttr(atts, "name")
       case None => Stop(st, MissingAttribute("name"))
       case Some(n) =>
         match CurrentTarget(st)
         case None => Stop(st, NoOpenNode)
         case Some(t) => st.(out := InvokeIgnoringError(st.out, SetProp(t, n, None))))
    case FetchProps =>
      (match CurrentTarget(st)
       case None => Stop(st, NoOpenNode)
       case Some(t) =>
         if !env.fetchContent then st.(out := InvokeIgnoringError(st.out, SetProp(t, Bogosity, None)))
         else if st.fileBaton.Some? then st.(fetchProps := true)
         else st.(dirs := SetTop(st.dirs, Last(st.dirs).(fetchProps := true))))
    case FetchFile =>
      if st.dirs == [] || st.fileBaton.None? then Stop(st, NoOpenNode)
      else st.(out := SimpleFetchFile(env.ed, st.out, st.href, Some(Last(st.dirs).path), env.fetchContent,
                                      st.fileBaton.value, Response(env, st.href)))
    case DeleteEntry =>
      (match GetAttr(atts, "name")
       case None => Stop(st, MissingAttribute("name"))
       case Some(n) =>
         if st.dirs == [] then Stop(st, NoOpenNode)
         else st.(out := Invoke(env.ed, st.out, Effect.DeleteEntry(n, InvalidRevnum, Last(st.dirs).baton))))
    case _ => st
  }

  /** open-directory: the first one opens the root, with path "."; later ones
      open a subdirectory of the innermost directory. Properties are not
      fetched for an opened directory unless asked. */
  function StartOpenDirectory(env: Env, st: Report, atts: seq<(string, string)>): Report
    requires st.out.err.None?
  {
    match GetAttr(atts, "rev")
    case None => Stop(st, MissingAttribute("rev"))
    case Some(a) =>
      var base := StrToRev(a);
      var b := |st.out.calls|;
      if st.dirs == [] then
        var o := Invoke(env.ed, st.out, OpenRoot(base));
        Commit(st, o, st.(dirs := [DirItem(b, false, None, RootPath)]))
      else
        match GetAttr(atts, "name")
        case None => Stop(st, MissingAttribute("name"))
        case Some(n) =>
          var parent := Last(st.dirs);
          var o := Invoke(env.ed, st.out, Effect.OpenDirectory(n, parent.baton, base));
          Commit(st, o, st.(dirs := st.dirs + [DirItem(b, false, None, parent.path + [n])]))
  }

  /** add-directory: add a subdirectory of the innermost directory, whose
      properties are always fetched. */
  function StartAddDirectory(env: Env, st: Report, atts: seq<(string, string)>): Report
    requires st.out.err.None?
  {
    match GetAttr(atts, "name")
    case None => Stop(st, MissingAttribute("name"))
    case Some(n) =>
      match ReadCopyfrom(atts)
      case None => Stop(st, MissingAttribute("copyfrom-rev"))
      case Some((cpath, crev)) =>
        if st.dirs == [] then Stop(st, NoOpenNode)
        else
          var parent := Last(st.dirs);
          var b := |st.out.calls|;
          var o := Invoke(env.ed, st.out, Effect.AddDirectory(n, parent.baton, cpath, crev));
          Commit(st, o, st.(dirs := st.dirs + [DirItem(b, true, None, parent.path + [n])]))
  }

  /** open-file: open a file of the innermost directory and add its name to
      that directory's path until the file element ends. */
  function StartOpenFile(env: Env, st: Report, atts: seq<(string, string)>): Report
    requires st.out.err.None?
  {
    match GetAttr(atts, "rev")
    case None => Stop(st, MissingAttribute("rev"))
    case Some(a) =>
      match GetAttr(atts, "name")
      case None => Stop(st, MissingAttribute("name"))
      case Some(n) =>
        if st.dirs == [] then Stop(st, NoOpenNode)
        else
          var parent := Last(st.dirs);
          var b := |st.out.calls|;
          var o := Invoke(env.ed, st.out, Effect.OpenFile(n, parent.baton, StrToRev(a)));
          Commit(st, o, st.(fileBaton := Some(b), fetchProps := false,
                            dirs := SetTop(st.dirs, parent.(path := parent.path + [n]))))
  }

  /** add-file: like open-file, but the file's properties are fetched. */
  function StartAddFile(env: Env, st: Report, atts: seq<(string, string)>): Report
    requires st.out.err.None?
  {
    match GetAttr(atts, "name")
    case None => Stop(st, MissingAttribute("name"))
    case Some(n) =>
      match ReadCopyfrom(atts)
      case None => Stop(st, MissingAttribute("copyfrom-rev"))
      case Some((cpath, crev)) =>
        if st.dirs == [] then Stop(st, NoOpenNode)
        else
          var parent := Last(st.dirs);
          var b := |st.out.calls|;
          var o := Invoke(env.ed, st.out, Effect.AddFile(n, parent.baton, cpath, crev));
          Commit(st, o, st.(fileBaton := Some(b), fetchProps := true,
                            dirs := SetTop(st.dirs, parent.(path := parent.path + [n]))))
  }

  // ---------------------------------------------------------------------
  // add_node_props and end_element
  // ---------------------------------------------------------------------

  /** Fetch the properties of a resource and hand them to the node. */
  ghost function FetchAndAddProps(env: Env, o: Out, url: string, t: Target): Out {
    var o1 := Request(o, Propfind(url));
    if url !in env.props then Fail(o1, NetworkError(url))
    else AddProps(o1, t, env.props[url])
  }

  /** add_node_props: when content is fetched and the current node's flag is
      set, fetch its properties (a file's from the last href, a directory's
      from its version URL) and set them on it. */
  ghost function AddNodeProps(env: Env, st: Report): Out {
    if !env.fetchContent then st.out
    else if st.fileBaton.Some? then
      if !st.fetchProps then st.out
      else FetchAndAddProps(env, st.out, st.href, FileTarget(st.fileBaton.value))
    else if st.dirs == [] then Fail(st.out, NoOpenNode)
    else if !Last(st.dirs).fetchProps then st.out
    else match Last(st.dirs).vsnUrl
      case None => Fail(st.out, NoVersionUrl)
      case Some(url) => FetchAndAddProps(env, st.out, url, DirTarget(Last(st.dirs).baton))
  }

  ghost function EndElement(env: Env, st: Report, e: Elem, cdata: string): Report
    requires st.out.err.None?
  {
    match e
    case OpenDirectory => EndDirectory(env, st)
    case AddDirectory => EndDirectory(env, st)
    case AddFile =>
      if st.dirs == [] || st.fileBaton.None? then Stop(st, NoOpenNode)
      else
        var o := SimpleFetchFile(env.ed, st.out, st.href, Some(Last(st.dirs).path), env.fetchContent,
                                 st.fileBaton.value, Response(env, st.href));
        if o.err.Some? then st.(out := o) else EndFile(env, st.(out := o))
    case OpenFile => EndFile(env, st)
    case Href =>
      if !env.fetchContent then st
      else
        (match CurrentTarget(st)
         case None => Stop(st, NoOpenNode)
         case Some(t) =>
           var url := env.hrefPath(cdata);
           var o := Invoke(env.ed, st.out, SetProp(t, WcVersionUrl, Some(url)));
           var st1 := st.(href := url);
           if t.FileTarget? then st1.(out := o)
           else Commit(st1, o, st1.(dirs := SetTop(st.dirs, Last(st.dirs).(vsnUrl := Some(url))))))
    case VersionName => EndLiveProp(env, st, e, cdata)
    case CreationDate => EndLiveProp(env, st, e, cdata)
    case CreatorDisplayname => EndLiveProp(env, st, e, cdata)
    case _ => st
  }

  /** The end of a directory element: its properties if wanted, then
      close_directory on the innermost directory, which is popped. */
  ghost function EndDirectory(env: Env, st: Report): Report
    requires st.out.err.None?
  {
    if st.dirs == [] then Stop(st, NoOpenNode)
    else
      var o := AddNodeProps(env, st);
      if o.err.Some? then st.(out := o)
      else
        var o2 := Invoke(env.ed, o, CloseDirectory(Last(st.dirs).baton));
        Commit(st, o2, st.(dirs := DropLast(st.dirs)))
  }

  /** The end of a file element: its properties if wanted, close_file, no
      file open any more, and the file's name leaves the directory's path. */
  ghost function EndFile(env: Env, st: Report): Report
    requires st.out.err.None?
  {
    if st.dirs == [] || st.fileBaton.None? then Stop(st, NoOpenNode)
    else
      var o := AddNodeProps(env, st);
      if o.err.Some? then st.(out := o)
      else
        var o2 := Invoke(env.ed, o, CloseFile(st.fileBaton.value));
        var top := Last(st.dirs);
        Commit(st, o2, st.(fileBaton := None, dirs := SetTop(st.dirs, top.(path := RemoveComponent(top.path)))))
  }

  /** The end of a version-name, creationdate or creator-displayname element:
      its text becomes the matching entry property of the current node; the
      property's name is the element's namespace followed by its name. */
  function EndLiveProp(env: Env, st: Report, e: Elem, cdata: string): Report
    requires e == VersionName || e == CreationDate || e == CreatorDisplayname
  {
    match CurrentTarget(st)
    case None => Stop(st, NoOpenNode)
    case Some(t) =>
      match SpecialWcProp(NameOf(e).0 + NameOf(e).1)
      case None => st
      case Some(n) => st.(out := Invoke(env.ed, st.out, SetProp(t, n, Some(cdata))))
  }

  // ---------------------------------------------------------------------
  // Driving the handlers
  // ---------------------------------------------------------------------

  /** One event: a start tag is checked against the grammar in the context
      of the innermost open element before its handler runs; an end tag runs
      the handler of the innermost open element. */
  ghost function Step(env: Env, st: Report, ev: Event): Report
    requires st.out.err.None?
  {
    match ev
    case StartElem(ns, name, atts) =>
      if st.closed then Stop(st, XmlError)
      else
        var parent := if st.elems == [] then Root else Last(st.elems);
        var child := Lookup(ns, name);
        if Validate(parent, child) != Valid then Stop(st, GrammarError)
        else StartElement(env, st, child, atts).(elems := st.elems + [child])
    case EndElem(cdata) =>
      if st.elems == [] then Stop(st, XmlError)
      else EndElement(env, st, Last(st.elems), cdata).(elems := DropLast(st.elems), closed := |st.elems| == 1)
  }

  /** The parse: events in document order until the first error. */
  ghost function Run(env: Env, st: Report, events: seq<Event>): Report
    decreases |events|
  {
    if st.out.err.Some? || events == [] then st
    else Run(env, Step(env, st, events[0]), events[1..])
  }

  /** reporter_finish_report once the response is parsed: a parse error is
      returned; otherwise the edit is closed. A response that does not end
      its document element is not well formed. */
  ghost function FinishReport(env: Env, events: seq<Event>): Out {
    var st := Run(env, Init, events);
    if st.out.err.Some? then st.out
    else if !st.closed then Fail(st.out, XmlError)
    else Invoke(env.ed, st.out, CloseEdit)
  }

  /** A child of update-report that would set the target revision again or
      after the root was opened, or open the root a second time. The table
      admits these, and the edit they drive breaks the editor's contract.
      Whether the root was opened and the target set is read off the trace. */
  predicate SecondRoot(st: Report, c: Elem) {
    var rooted := Count(st.out.calls, OpensRoot) > 0;
    (c == TargetRevision && (rooted || Count(st.out.calls, SetsTarget) > 0)) ||
    (c == Elem.OpenDirectory && st.dirs == [] && rooted)
  }

  /** A parse step with the check start_element lacks: such a child is
      refused as one the grammar should not admit. */
  ghost function StepRooted(env: Env, st: Report, ev: Event): Report
    requires st.out.err.None?
  {
    if ev.StartElem? && !st.closed && SecondRoot(st, Lookup(ev.ns, ev.name)) then Stop(st, GrammarError)
    else Step(env, st, ev)
  }

  /** The corrected parse: StepRooted in document order until the first
      error. */
  ghost function RunRooted(env: Env, st: Report, events: seq<Event>): Report
    decreases |events|
  {
    if st.out.err.Some? || events == [] then st
    else RunRooted(env, StepRooted(env, st, events[0]), events[1..])
  }

  /** reporter_finish_report over the corrected parse, with the check the
      edit needs: close_edit only once the parse has opened the root; a
      report that opened none is refused as one the grammar should not have
      admitted. */
  ghost function FinishReportRooted(env: Env, events: seq<Event>): Out {
    var st := RunRooted(env, Init, events);
    if st.out.err.Some? then st.out
    else if !st.closed then Fail(st.out, XmlError)
    else if Count(st.out.calls, OpensRoot) == 0 then Fail(st.out, GrammarError)
    else Invoke(env.ed, st.out, CloseEdit)
  }
}
