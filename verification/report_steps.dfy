/** The update-report handlers one at a time: what each start or end tag
    does to the directory stack, the open file, the fetch-props flags and the
    href, and which editor call it makes. */
module ReportSteps {
  import opened SvnTypes
  import opened DeltaEditor
  import opened DavProps
  import opened FileFetch
  import opened ReportGrammar
  import opened ReportParser

  // ---------------------------------------------------------------------
  // Directories
  // ---------------------------------------------------------------------

  /** open-directory pushes exactly one frame, for the node its own editor
      call opened: the root, with path ".", when the stack is empty, and
      otherwise a subdirectory of the innermost directory whose path extends
      the parent's by the name. Its properties are not to be fetched and its
      version URL is not known yet. When the call fails nothing is pushed. */
  lemma OpenDirectoryPushesOneFrame(env: Env, st: Report, atts: seq<(string, string)>)
    requires st.out.err.None?
    ensures var r := StartElement(env, st, Elem.OpenDirectory, atts);
            r.out.err.Some? ==> r.dirs == st.dirs
    ensures var r := StartElement(env, st, Elem.OpenDirectory, atts);
            r.out.err.None? ==>
              GetAttr(atts, "rev").Some? &&
              |r.dirs| == |st.dirs| + 1 && r.dirs[..|st.dirs|] == st.dirs && r.fileBaton == st.fileBaton &&
              |r.out.calls| == |st.out.calls| + 1 && r.out.calls[..|st.out.calls|] == st.out.calls &&
              Last(r.dirs).baton == |st.out.calls| &&
              !Last(r.dirs).fetchProps && Last(r.dirs).vsnUrl.None? &&
              var base := StrToRev(GetAttr(atts, "rev").value);
              (st.dirs == [] ==> Last(r.out.calls) == OpenRoot(base) && Last(r.dirs).path == ["."]) &&
              (st.dirs != [] ==>
                 GetAttr(atts, "name").Some? &&
                 Last(r.out.calls) == Effect.OpenDirectory(GetAttr(atts, "name").value, Last(st.dirs).baton, base) &&
                 Last(r.dirs).path == Last(st.dirs).path + [GetAttr(atts, "name").value])
  {
    var r := StartElement(env, st, Elem.OpenDirectory, atts);
    assert r == StartOpenDirectory(env, st, atts);
    if r.out.err.None? {
      var base := StrToRev(GetAttr(atts, "rev").value);
      var b := |st.out.calls|;
      if st.dirs == [] {
        var o := Invoke(env.ed, st.out, OpenRoot(base));
        assert r == st.(out := o, dirs := [DirItem(b, false, None, RootPath)]);
      } else {
        var n := GetAttr(atts, "name").value;
        var o := Invoke(env.ed, st.out, Effect.OpenDirectory(n, Last(st.dirs).baton, base));
        assert r == st.(out := o, dirs := st.dirs + [DirItem(b, false, None, Last(st.dirs).path + [n])]);
      }
      assert r.dirs[..|st.dirs|] == st.dirs;
      assert r.out.calls[..|st.out.calls|] == st.out.calls;
    }
  }

  /** add-directory pushes exactly one frame for the added subdirectory,
      whose properties are always fetched; the copy source goes to the
      editor as the server sent it. */
  lemma AddDirectoryPushesOneFrame(env: Env, st: Report, atts: seq<(string, string)>)
    requires st.out.err.None?
    ensures var r := StartElement(env, st, Elem.AddDirectory, atts);
            r.out.err.Some? ==> r.dirs == st.dirs
    ensures var r := StartElement(env, st, Elem.AddDirectory, atts);
            r.out.err.None? ==>
              GetAttr(atts, "name").Some? && ReadCopyfrom(atts).Some? && st.dirs != [] &&
              |r.dirs| == |st.dirs| + 1 && r.dirs[..|st.dirs|] == st.dirs && r.fileBaton == st.fileBaton &&
              |r.out.calls| == |st.out.calls| + 1 && r.out.calls[..|st.out.calls|] == st.out.calls &&
              Last(r.dirs).baton == |st.out.calls| &&
              Last(r.dirs).fetchProps && Last(r.dirs).vsnUrl.None? &&
              var n := GetAttr(atts, "name").value;
              Last(r.out.calls) == Effect.AddDirectory(n, Last(st.dirs).baton, ReadCopyfrom(atts).value.0, ReadCopyfrom(atts).value.1) &&
              Last(r.dirs).path == Last(st.dirs).path + [n]
  {
    var r := StartElement(env, st, Elem.AddDirectory, atts);
    if r.out.err.None? {
      assert r.dirs[..|st.dirs|] == st.dirs;
      assert r.out.calls[..|st.out.calls|] == st.out.calls;
    }
  }

  /** The end of a directory element closes the innermost directory, as the
      last call, and pops exactly its frame. */
  lemma DirectoryEndPopsOneFrame(env: Env, st: Report)
    requires st.out.err.None? && st.dirs != []
    ensures var r := EndDirectory(env, st);
            r.out.err.None? ==>
              r.dirs == DropLast(st.dirs) && r.fileBaton == st.fileBaton &&
              Last(r.out.calls) == CloseDirectory(Last(st.dirs).baton)
  {
  }

  /** A directory element leaves the stack as it found it: the frame its
      start pushed is the one its end pops, whatever its children did to that
      frame's flags. */
  lemma DirectoryElementRestoresStack(env: Env, st: Report, atts: seq<(string, string)>, inner: Report)
    requires st.out.err.None? && inner.out.err.None?
    requires var r := StartOpenDirectory(env, st, atts);
             r.out.err.None? && |inner.dirs| == |r.dirs| && DropLast(inner.dirs) == DropLast(r.dirs)
    ensures var r := EndDirectory(env, inner);
            r.out.err.None? ==> r.dirs == st.dirs
  {
    OpenDirectoryPushesOneFrame(env, st, atts);
    var r := StartOpenDirectory(env, st, atts);
    assert DropLast(r.dirs) == r.dirs[..|st.dirs|];
  }

  // ---------------------------------------------------------------------
  // Files
  // ---------------------------------------------------------------------

  /** What a file start leaves behind: the file open, and the innermost
      directory's path extended by its name. */
  predicate FileOpenedIn(st: Report, r: Report, n: string) {
    st.dirs != [] && r.fileBaton.Some? &&
    |r.dirs| == |st.dirs| && DropLast(r.dirs) == DropLast(st.dirs) &&
    Last(r.dirs).baton == Last(st.dirs).baton && Last(r.dirs).path == Last(st.dirs).path + [n]
  }

  /** open-file opens a file of the innermost directory, whose path gains
      the file's name; the file's properties are not to be fetched. */
  lemma OpenFileExtendsPath(env: Env, st: Report, atts: seq<(string, string)>)
    requires st.out.err.None?
    ensures var r := StartOpenFile(env, st, atts);
            r.out.err.Some? ==> r.dirs == st.dirs && r.fileBaton == st.fileBaton
    ensures var r := StartOpenFile(env, st, atts);
            r.out.err.None? ==>
              GetAttr(atts, "name").Some? && GetAttr(atts, "rev").Some? &&
              FileOpenedIn(st, r, GetAttr(atts, "name").value) &&
              r.fileBaton == Some(|st.out.calls|) && !r.fetchProps &&
              Last(r.out.calls) == Effect.OpenFile(GetAttr(atts, "name").value, Last(st.dirs).baton,
                                                   StrToRev(GetAttr(atts, "rev").value))
  {
    var r := StartOpenFile(env, st, atts);
    if r.out.err.None? {
      assert DropLast(r.dirs) == DropLast(st.dirs);
    }
  }

  /** add-file adds a file to the innermost directory, whose path gains the
      file's name; the file's properties are to be fetched. */
  lemma AddFileExtendsPath(env: Env, st: Report, atts: seq<(string, string)>)
    requires st.out.err.None?
    ensures var r := StartAddFile(env, st, atts);
            r.out.err.Some? ==> r.dirs == st.dirs && r.fileBaton == st.fileBaton
    ensures var r := StartAddFile(env, st, atts);
            r.out.err.None? ==>
              GetAttr(atts, "name").Some? && ReadCopyfrom(atts).Some? &&
              FileOpenedIn(st, r, GetAttr(atts, "name").value) &&
              r.fileBaton == Some(|st.out.calls|) && r.fetchProps &&
              Last(r.out.calls) == Effect.AddFile(GetAttr(atts, "name").value, Last(st.dirs).baton,
                                                  ReadCopyfrom(atts).value.0, ReadCopyfrom(atts).value.1)
  {
    var r := StartAddFile(env, st, atts);
    if r.out.err.None? {
      assert DropLast(r.dirs) == DropLast(st.dirs);
    }
  }

  /** The end of a file element closes the file, as the last call; no file
      is open afterwards and the last name leaves the directory's path. */
  lemma FileEndShortensPath(env: Env, st: Report)
    requires st.out.err.None? && st.fileBaton.Some? && st.dirs != []
    ensures var r := EndFile(env, st);
            r.out.err.None? ==>
              r.fileBaton.None? && Last(r.out.calls) == CloseFile(st.fileBaton.value) &&
              |r.dirs| == |st.dirs| && DropLast(r.dirs) == DropLast(st.dirs) &&
              Last(r.dirs).path == RemoveComponent(Last(st.dirs).path)
  {
  }

  /** A file element leaves every directory's path as it found it, and no
      file open: whatever happened inside it, once the file start has
      extended the innermost path by the name, the file end takes the name
      off again. */
  lemma FileElementRestoresPaths(env: Env, st: Report, inner: Report, n: string)
    requires inner.out.err.None? && FileOpenedIn(st, inner, n)
    ensures var r := EndFile(env, inner);
            r.out.err.None? ==>
              r.fileBaton.None? && |r.dirs| == |st.dirs| &&
              forall k :: 0 <= k < |st.dirs| ==> r.dirs[k].path == st.dirs[k].path && r.dirs[k].baton == st.dirs[k].baton
  {
    FileEndShortensPath(env, inner);
    var r := EndFile(env, inner);
    if r.out.err.None? {
      var m := |st.dirs| - 1;
      assert RemoveComponent(Last(st.dirs).path + [n]) == Last(st.dirs).path;
      forall k | 0 <= k < |st.dirs|
        ensures r.dirs[k].path == st.dirs[k].path && r.dirs[k].baton == st.dirs[k].baton
      {
        if k < m {
          assert r.dirs[k] == DropLast(r.dirs)[k] && st.dirs[k] == DropLast(st.dirs)[k];
        }
      }
    }
  }

  // ---------------------------------------------------------------------
  // Properties
  // ---------------------------------------------------------------------

  /** fetch-props: in a status report it unsets the placeholder property
      "svn:BOGOSITY" on the current node, ignoring the editor's answer;
      otherwise it only marks the current node (the open file, else the
      innermost directory) for property fetching. */
  lemma FetchPropsMarksCurrentNode(env: Env, st: Report, atts: seq<(string, string)>)
    requires st.out.err.None? && CurrentTarget(st).Some?
    ensures var r := StartElement(env, st, FetchProps, atts);
            !env.fetchContent ==>
              r.out == Out(st.out.calls + [SetProp(CurrentTarget(st).value, Bogosity, None)], None) &&
              r.dirs == st.dirs && r.fetchProps == st.fetchProps
    ensures var r := StartElement(env, st, FetchProps, atts);
            env.fetchContent && st.fileBaton.Some? ==> r == st.(fetchProps := true)
    ensures var r := StartElement(env, st, FetchProps, atts);
            env.fetchContent && st.fileBaton.None? ==>
              r.out == st.out && r.fetchProps == st.fetchProps &&
              |r.dirs| == |st.dirs| && DropLast(r.dirs) == DropLast(st.dirs) &&
              Last(r.dirs) == Last(st.dirs).(fetchProps := true)
  {
  }

  /** remove-prop unsets the named property on the current node and carries
      on whatever the editor answers. */
  lemma RemovePropIgnoresEditorErrors(env: Env, st: Report, atts: seq<(string, string)>)
    requires st.out.err.None? && CurrentTarget(st).Some? && GetAttr(atts, "name").Some?
    ensures StartElement(env, st, RemoveProp, atts) ==
            st.(out := Out(st.out.calls + [SetProp(CurrentTarget(st).value, GetAttr(atts, "name").value, None)], None))
  {
  }

  /** delete-entry, by contrast, stops the parse when the editor fails. */
  lemma DeleteEntryPropagatesEditorErrors(env: Env, st: Report, atts: seq<(string, string)>)
    requires st.out.err.None? && st.dirs != [] && GetAttr(atts, "name").Some?
    ensures var r := StartElement(env, st, Elem.DeleteEntry, atts);
            r.out.calls == st.out.calls + [Effect.DeleteEntry(GetAttr(atts, "name").value, InvalidRevnum, Last(st.dirs).baton)] &&
            (r.out.err.Some? <==> |st.out.calls| in env.ed.failing)
  {
  }

  /** add_node_props makes a request exactly when content is fetched and the
      current node is marked; otherwise it does nothing at all. A marked file
      is fetched from the last href, a marked directory from its version
      URL. */
  lemma AddNodePropsOnlyWhenMarked(env: Env, st: Report)
    requires st.out.err.None? && (st.fileBaton.Some? || st.dirs != [])
    ensures var marked := if st.fileBaton.Some? then st.fetchProps else Last(st.dirs).fetchProps;
            (AddNodeProps(env, st) == st.out <==> !(env.fetchContent && marked))
    ensures var o := AddNodeProps(env, st);
            env.fetchContent && st.fileBaton.Some? && st.fetchProps ==>
              |o.calls| > |st.out.calls| && o.calls[|st.out.calls|] == Propfind(st.href)
    ensures var o := AddNodeProps(env, st);
            env.fetchContent && st.fileBaton.None? && Last(st.dirs).fetchProps ==>
              (Last(st.dirs).vsnUrl.None? ==> o == Out(st.out.calls, Some(NoVersionUrl))) &&
              (Last(st.dirs).vsnUrl.Some? ==>
                 |o.calls| > |st.out.calls| && o.calls[|st.out.calls|] == Propfind(Last(st.dirs).vsnUrl.value))
  {
  }

  /** href: ignored in a status report; otherwise the path part of the
      text becomes the current href and the current node's version-URL
      property, and a directory also remembers it as the URL its properties
      come from. */
  lemma HrefStoresVersionUrl(env: Env, st: Report, cdata: string)
    requires st.out.err.None? && CurrentTarget(st).Some?
    ensures !env.fetchContent ==> EndElement(env, st, Href, cdata) == st
    ensures var r := EndElement(env, st, Href, cdata);
            var t := CurrentTarget(st).value;
            env.fetchContent ==>
              r.href == env.hrefPath(cdata) &&
              r.out.calls == st.out.calls + [SetProp(t, WcVersionUrl, Some(env.hrefPath(cdata)))] &&
              (t.FileTarget? ==> r.dirs == st.dirs) &&
              (t.DirTarget? && r.out.err.None? ==>
                 |r.dirs| == |st.dirs| && DropLast(r.dirs) == DropLast(st.dirs) &&
                 Last(r.dirs) == Last(st.dirs).(vsnUrl := Some(env.hrefPath(cdata))))
  {
  }

  /** The entry property each live-property element sets. */
  function EntryPropOf(e: Elem): string
    requires e == VersionName || e == CreationDate || e == CreatorDisplayname
  {
    if e == VersionName then EntryCommittedRev
    else if e == CreationDate then EntryCommittedDate
    else EntryLastAuthor
  }

  /** version-name, creationdate and creator-displayname set the committed
      revision, committed date and last author of the current node to the
      element's text. */
  lemma LivePropsBecomeEntryProps(env: Env, st: Report, e: Elem, cdata: string)
    requires st.out.err.None? && CurrentTarget(st).Some?
    requires e == VersionName || e == CreationDate || e == CreatorDisplayname
    ensures var r := EndElement(env, st, e, cdata);
            r.out.calls == st.out.calls + [SetProp(CurrentTarget(st).value, EntryPropOf(e), Some(cdata))] &&
            r.dirs == st.dirs && r.fileBaton == st.fileBaton
  {
    SpecialWcPropValues();
  }
}
