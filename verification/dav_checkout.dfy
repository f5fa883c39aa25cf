/** The DAV checkout (svn_ra_dav__do_checkout with fetch_dirents and
    fetch_file): a walk of the baseline collection that keeps the
    subdirectories still to visit on an explicit stack instead of recursing.
    Visiting a collection adds its directory, sets the directory's
    properties, pushes a sentinel for it and then its subcollections, and
    fetches its files; popping a sentinel closes that directory, and popping
    the last one ends the edit. */
module DavCheckout {
  import opened SvnTypes
  import opened DeltaEditor
  import opened DavProps
  import opened FileFetch

  // ---------------------------------------------------------------------
  // The server's side
  // ---------------------------------------------------------------------

  /** A non-collection resource of a listing: its URL, the properties the
      listing reports for it and the server's answer to a GET of the URL. */
  datatype FileInfo = FileInfo(url: string, props: PropMap, content: GetResponse)

  /** A resource of a depth-1 PROPFIND listing: a collection with the
      properties the listing reports for it, or a file. */
  datatype Resource =
    | CollResource(props: PropMap, coll: Collection)
    | FileResource(file: FileInfo)

  /** A collection as the server answers about it: its URL; whether a
      depth-0 PROPFIND of it succeeds, and the properties it then reports;
      whether a depth-1 PROPFIND succeeds, and the resources it then lists,
      in hash order. The listing normally includes the collection itself. */
  datatype Collection = Collection(url: string, propsOk: bool, props: PropMap,
                                   listed: bool, listing: seq<Resource>)

  /** What begin_checkout learns: the URL of the activity collection, the
      revision being checked out, and the root of that revision's baseline
      collection (bc_root is its URL). */
  datatype Begin = Begin(activityUrl: string, targetRev: int, root: Collection)

  // ---------------------------------------------------------------------
  // The client's side
  // ---------------------------------------------------------------------

  /** An entry of the subdirs stack (subdir_t): a collection still to visit,
      with the baton of the directory it is added under; or a sentinel (an
      entry without a resource) that closes the directory whose baton it
      carries. */
  datatype Frame = Pending(coll: Collection, parent: Baton) | Sentinel(dir: Baton)

  /** What stays fixed during the walk: the editor, bc_root, the root
      directory's baton, the activity URL and whether to recurse. */
  datatype Walk = Walk(ed: Editor, bcRoot: string, rootBaton: Baton, activityUrl: string, recurse: bool)

  /** The text after the last '/'. */
  function AfterLastSlash(s: string): string
    decreases |s|
  {
    if s == [] || Last(s) == '/' then [] else AfterLastSlash(DropLast(s)) + [Last(s)]
  }

  /** s without its trailing slashes. */
  function TrimSlashes(s: string): string
    decreases |s|
  {
    if s != [] && Last(s) == '/' then TrimSlashes(DropLast(s)) else s
  }

  /** my_basename: the last component of a URL, trailing slashes ignored. */
  function Basename(url: string): string {
    AfterLastSlash(TrimSlashes(url))
  }

  lemma {:induction false} AfterLastSlashIsSuffix(s: string)
    ensures var b := AfterLastSlash(s);
            |b| <= |s| && b == s[|s| - |b|..] &&
            (forall i :: 0 <= i < |b| ==> b[i] != '/') &&
            (|b| < |s| ==> s[|s| - |b| - 1] == '/')
    decreases |s|
  {
    if s != [] && Last(s) != '/' {
      AfterLastSlashIsSuffix(DropLast(s));
    }
  }

  lemma {:induction false} TrimSlashesIsPrefix(s: string)
    ensures var t := TrimSlashes(s);
            |t| <= |s| && t == s[..|t|] && (t == [] || Last(t) != '/') &&
            forall i :: |t| <= i < |s| ==> s[i] == '/'
    decreases |s|
  {
    if s != [] && Last(s) == '/' {
      TrimSlashesIsPrefix(DropLast(s));
    }
  }

  /** The basename is the last component of the URL once its trailing
      slashes are dropped: it holds no slash, and it is preceded by a slash
      unless it is the whole of what remains. */
  lemma BasenameIsLastComponent(url: string)
    ensures var t := TrimSlashes(url);
            var b := Basename(url);
            |t| <= |url| && t == url[..|t|] && (forall i :: |t| <= i < |url| ==> url[i] == '/') &&
            |b| <= |t| && b == t[|t| - |b|..] &&
            (forall i :: 0 <= i < |b| ==> b[i] != '/') &&
            (|b| < |t| ==> t[|t| - |b| - 1] == '/')
  {
    TrimSlashesIsPrefix(url);
    AfterLastSlashIsSuffix(TrimSlashes(url));
  }

  lemma {:induction false} AfterLastSlashOfChild(parent: string, name: string)
    requires forall i :: 0 <= i < |name| ==> name[i] != '/'
    ensures AfterLastSlash(parent + "/" + name) == name
    decreases |name|
  {
    var u := parent + "/" + name;
    if name != [] {
      assert Last(u) == Last(name);
      assert DropLast(u) == parent + "/" + DropLast(name);
      AfterLastSlashOfChild(parent, DropLast(name));
      assert DropLast(name) + [Last(name)] == name;
    }
  }

  /** The name a child collection or file is added under is the component
      its URL adds to its parent's, whether or not the URL ends in a slash. */
  lemma BasenameOfChild(parent: string, name: string)
    requires name != [] && forall i :: 0 <= i < |name| ==> name[i] != '/'
    ensures Basename(parent + "/" + name) == name
    ensures Basename(parent + "/" + name + "/") == name
  {
    var u := parent + "/" + name;
    assert TrimSlashes(u) == u by {
      assert Last(u) == Last(name);
    }
    assert TrimSlashes(u + "/") == u by {
      assert DropLast(u + "/") == u;
    }
    AfterLastSlashOfChild(parent, name);
  }

  // ---------------------------------------------------------------------
  // Why the walk ends
  // ---------------------------------------------------------------------

  /** The number of collections in the tree of c, counting every listed
      collection, the entry for c itself included. */
  function Size(c: Collection): nat
    decreases c, |c.listing| + 1
  {
    1 + ListingSize(c, |c.listing|)
  }

  /** The sizes of the collections among the first n listed resources. */
  function ListingSize(c: Collection, n: nat): nat
    requires n <= |c.listing|
    decreases c, n
  {
    if n == 0 then 0
    else ListingSize(c, n - 1) + (match c.listing[n - 1] case CollResource(_, d) => Size(d) case FileResource(_) => 0)
  }

  /** A sentinel weighs one; a pending collection weighs twice its size,
      more than the sentinel and the collections its visit pushes. */
  function FrameWeight(f: Frame): nat {
    match f
    case Pending(c, _) => 2 * Size(c)
    case Sentinel(_) => 1
  }

  function StackWeight(stack: seq<Frame>): nat
    decreases |stack|
  {
    if stack == [] then 0 else StackWeight(DropLast(stack)) + FrameWeight(Last(stack))
  }

  lemma {:induction false} StackWeightAppend(a: seq<Frame>, b: seq<Frame>)
    ensures StackWeight(a + b) == StackWeight(a) + StackWeight(b)
    decreases |b|
  {
    if b == [] {
      assert a + b == a;
    } else {
      assert DropLast(a + b) == a + DropLast(b);
      StackWeightAppend(a, DropLast(b));
    }
  }

  // ---------------------------------------------------------------------
  // fetch_dirents
  // ---------------------------------------------------------------------

  /** What fetch_dirents leaves behind: the trace, the frames it pushed in
      push order, and the files it collected in listing order. */
  datatype Dirents = Dirents(out: Out, subdirs: seq<Frame>, files: seq<FileInfo>)

  /** fetch_dirents over the first n resources of the listing: the entry for
      the collection itself has its version URL stored on the directory;
      every other collection is pushed, to be added under this directory,
      when recursing; every other resource is collected as a file. A failing
      store ends the scan. */
  function FetchDirents(w: Walk, o: Out, c: Collection, n: nat, dir: Baton): (d: Dirents)
    requires n <= |c.listing| && o.err.None?
    ensures StackWeight(d.subdirs) <= 2 * ListingSize(c, n)
    decreases n
  {
    if n == 0 then Dirents(o, [], [])
    else
      var d := FetchDirents(w, o, c, n - 1, dir);
      if d.out.err.Some? then d
      else match c.listing[n - 1]
        case CollResource(props, sub) =>
          if sub.url == c.url then d.(out := StoreVsnUrl(w.ed, d.out, DirTarget(dir), props))
          else if w.recurse then
            var f := Pending(sub, dir);
            assert DropLast(d.subdirs + [f]) == d.subdirs;
            d.(subdirs := d.subdirs + [f])
          else d
        case FileResource(f) => d.(files := d.files + [f])
  }

  /** The listed collections other than the one named self, in order. */
  function Subcollections(rs: seq<Resource>, self: string): (cs: seq<Collection>)
    ensures |cs| <= |rs|
    decreases |rs|
  {
    if rs == [] then []
    else Subcollections(DropLast(rs), self) +
         (if Last(rs).CollResource? && Last(rs).coll.url != self then [Last(rs).coll] else [])
  }

  /** The listed non-collections, in order. */
  function ListedFiles(rs: seq<Resource>): (fs: seq<FileInfo>)
    ensures |fs| <= |rs|
    decreases |rs|
  {
    if rs == [] then [] else ListedFiles(DropLast(rs)) + (if Last(rs).FileResource? then [Last(rs).file] else [])
  }

  /** Frames for collections to be added under one directory. */
  function Under(cs: seq<Collection>, dir: Baton): (fs: seq<Frame>)
    ensures |fs| == |cs|
    ensures forall i :: 0 <= i < |cs| ==> fs[i] == Pending(cs[i], dir)
  {
    seq(|cs|, i requires 0 <= i < |cs| => Pending(cs[i], dir))
  }

  /** A collection is among the subcollections exactly when the listing
      holds it and it is not the collection named self. */
  lemma {:induction false} SubcollectionsMembers(rs: seq<Resource>, self: string, x: Collection)
    ensures x in Subcollections(rs, self) <==>
            x.url != self && exists j :: 0 <= j < |rs| && rs[j].CollResource? && rs[j].coll == x
    decreases |rs|
  {
    if rs != [] {
      var pre := DropLast(rs);
      SubcollectionsMembers(pre, self, x);
      assert forall j :: 0 <= j < |pre| ==> pre[j] == rs[j];
      if x.url != self && exists j :: 0 <= j < |rs| && rs[j].CollResource? && rs[j].coll == x {
        var j :| 0 <= j < |rs| && rs[j].CollResource? && rs[j].coll == x;
        if j < |pre| {
          assert pre[j].CollResource? && pre[j].coll == x;
        }
      }
    }
  }

  /** A completed scan pushes exactly the listed collections other than the
      directory itself, in listing order and each to be added under the
      directory, or nothing without recursion; and it collects exactly the
      listed non-collections, in listing order. */
  lemma DirentsAreFilters(w: Walk, o: Out, c: Collection, n: nat, dir: Baton)
    requires n <= |c.listing| && o.err.None?
    ensures var d := FetchDirents(w, o, c, n, dir);
            d.out.err.None? ==>
              d.subdirs == (if w.recurse then Under(Subcollections(c.listing[..n], c.url), dir) else []) &&
              d.files == ListedFiles(c.listing[..n])
  {
    if w.recurse {
      DirentsPushSubcollections(w, o, c, n, dir);
    } else {
      NoRecursionPushesNothing(w, o, c, n, dir);
    }
    DirentsCollectFiles(w, o, c, n, dir);
  }

  lemma UnderSnoc(cs: seq<Collection>, x: Collection, dir: Baton)
    ensures Under(cs + [x], dir) == Under(cs, dir) + [Pending(x, dir)]
  {
  }

  lemma {:induction false} DirentsPushSubcollections(w: Walk, o: Out, c: Collection, n: nat, dir: Baton)
    requires n <= |c.listing| && o.err.None? && w.recurse
    ensures var d := FetchDirents(w, o, c, n, dir);
            d.out.err.None? ==> d.subdirs == Under(Subcollections(c.listing[..n], c.url), dir)
    decreases n
  {
    if n > 0 {
      DirentsPushSubcollections(w, o, c, n - 1, dir);
      var rs := c.listing[..n];
      assert DropLast(rs) == c.listing[..n - 1] && Last(rs) == c.listing[n - 1];
      UnderSubcollectionsSnoc(rs, c.url, dir);
    }
  }

  /** Under and Subcollections, one resource at a time. */
  lemma UnderSubcollectionsSnoc(rs: seq<Resource>, self: string, dir: Baton)
    requires rs != []
    ensures Under(Subcollections(rs, self), dir) ==
            Under(Subcollections(DropLast(rs), self), dir) +
            (match Last(rs) case CollResource(_, sub) => if sub.url != self then [Pending(sub, dir)] else []
                            case FileResource(_) => [])
  {
    var cs := Subcollections(DropLast(rs), self);
    match Last(rs)
    case CollResource(_, sub) =>
      if sub.url != self {
        UnderSnoc(cs, sub, dir);
      } else {
        assert cs + [] == cs;
      }
    case FileResource(_) =>
      assert cs + [] == cs;
  }

  lemma {:induction false} DirentsCollectFiles(w: Walk, o: Out, c: Collection, n: nat, dir: Baton)
    requires n <= |c.listing| && o.err.None?
    ensures var d := FetchDirents(w, o, c, n, dir);
            d.out.err.None? ==> d.files == ListedFiles(c.listing[..n])
    decreases n
  {
    if n > 0 {
      DirentsCollectFiles(w, o, c, n - 1, dir);
      assert DropLast(c.listing[..n]) == c.listing[..n - 1];
    }
  }

  lemma {:induction false} DirentsExtend(w: Walk, o: Out, c: Collection, n: nat, dir: Baton)
    requires n <= |c.listing| && o.err.None?
    ensures o.calls <= FetchDirents(w, o, c, n, dir).out.calls
    decreases n
  {
    if n > 0 {
      DirentsExtend(w, o, c, n - 1, dir);
    }
  }

  /** Without recursion fetch_dirents pushes nothing. */
  lemma {:induction false} NoRecursionPushesNothing(w: Walk, o: Out, c: Collection, n: nat, dir: Baton)
    requires n <= |c.listing| && o.err.None? && !w.recurse
    ensures FetchDirents(w, o, c, n, dir).subdirs == []
    decreases n
  {
    if n > 0 {
      NoRecursionPushesNothing(w, o, c, n - 1, dir);
    }
  }

  /** Storing the directory's version URL keeps the contract's state. */
  lemma {:induction false} DirentsKeepContract(w: Walk, o: Out, c: Collection, n: nat, dir: Baton, s: Shadow)
    requires n <= |c.listing| && o.err.None?
    requires Replay(o.calls) == Some(s) && AtTop(s, dir) && !s.ended
    ensures Replay(FetchDirents(w, o, c, n, dir).out.calls) == Some(s)
    decreases n
  {
    if n > 0 {
      DirentsKeepContract(w, o, c, n - 1, dir, s);
      var d := FetchDirents(w, o, c, n - 1, dir);
      if d.out.err.None? && c.listing[n - 1].CollResource? && c.listing[n - 1].coll.url == c.url {
        var props := c.listing[n - 1].props;
        if DavCheckedIn in props {
          Append1(d.out.calls, ChangeDirProp(dir, WcVersionUrl, Some(props[DavCheckedIn])), s);
        }
      }
    }
  }

  // ---------------------------------------------------------------------
  // fetch_file
  // ---------------------------------------------------------------------

  /** fetch_file: add the file under the directory, fill it, and close it
      whatever happened after it was added; the first error wins. */
  ghost function FetchFile(ed: Editor, o: Out, f: FileInfo, dir: Baton): Out
    requires o.err.None?
  {
    var o1 := Invoke(ed, o, Effect.AddFile(Basename(f.url), dir, None, InvalidRevnum));
    if o1.err.Some? then o1 else Invoke(ed, FillFile(ed, o1, f, |o.calls|), CloseFile(|o.calls|))
  }

  /** The middle of fetch_file: fetch the full text, then set the file's
      properties (ignoring setter errors) and its version URL. */
  ghost function FillFile(ed: Editor, o: Out, f: FileInfo, fb: Baton): Out
    requires o.err.None?
  {
    var o1 := SimpleFetchFile(ed, o, f.url, None, true, fb, f.content);
    if o1.err.Some? then o1
    else StoreVsnUrl(ed, AddProps(o1, FileTarget(fb), f.props), FileTarget(fb), f.props)
  }

  lemma FillFileExtends(ed: Editor, o: Out, f: FileInfo, fb: Baton)
    requires o.err.None?
    ensures o.calls < FillFile(ed, o, f, fb).calls
  {
    FetchExtends(ed, o, f.url, None, true, fb, f.content);
  }

  /** fetch_file adds the file under the directory first; once the add has
      succeeded the file is closed last, whatever failed in between, and an
      add that fails ends it at once. */
  lemma FetchFileClosesFile(ed: Editor, o: Out, f: FileInfo, dir: Baton)
    requires o.err.None?
    ensures var r := FetchFile(ed, o, f, dir);
            var add := Effect.AddFile(Basename(f.url), dir, None, InvalidRevnum);
            o.calls + [add] <= r.calls &&
            (|o.calls| in ed.failing ==> r == Out(o.calls + [add], Some(EditorError(|o.calls|)))) &&
            (|o.calls| !in ed.failing ==> |r.calls| > |o.calls| + 1 && Last(r.calls) == CloseFile(|o.calls|))
  {
    var add := Effect.AddFile(Basename(f.url), dir, None, InvalidRevnum);
    var o1 := Invoke(ed, o, add);
    if o1.err.None? {
      FillFileExtends(ed, o1, f, |o.calls|);
    }
  }

  lemma FetchFileExtends(ed: Editor, o: Out, f: FileInfo, dir: Baton)
    requires o.err.None?
    ensures o.calls < FetchFile(ed, o, f, dir).calls
  {
    FetchFileClosesFile(ed, o, f, dir);
  }

  /** The files of a directory, fetched last-collected first. */
  ghost function FetchFiles(ed: Editor, o: Out, files: seq<FileInfo>, dir: Baton): Out
    requires o.err.None?
    decreases |files|
  {
    if files == [] then o
    else
      var o1 := FetchFile(ed, o, Last(files), dir);
      if o1.err.Some? then o1 else FetchFiles(ed, o1, DropLast(files), dir)
  }

  // ---------------------------------------------------------------------
  // svn_ra_dav__do_checkout
  // ---------------------------------------------------------------------

  /** What a visit leaves behind: the trace, the directory's baton and the
      frames fetch_dirents pushed above the directory's sentinel. */
  datatype Visited = Visited(out: Out, dir: Baton, subdirs: seq<Frame>)

  /** One pass of the loop for a pending collection: a URL longer than
      bc_root is a subdirectory, added under its parent; otherwise the walk
      is at the root and uses the root's baton. */
  ghost function Visit(w: Walk, o: Out, c: Collection, parent: Baton): (v: Visited)
    requires o.err.None?
    ensures StackWeight(v.subdirs) <= 2 * (Size(c) - 1)
  {
    if |c.url| > |w.bcRoot| then
      var o1 := Invoke(w.ed, o, Effect.AddDirectory(Basename(c.url), parent, None, InvalidRevnum));
      if o1.err.Some? then Visited(o1, |o.calls|, []) else VisitBody(w, o1, c, |o.calls|)
    else VisitBody(w, o, c, w.rootBaton)
  }

  /** The rest of the pass: the directory's properties are fetched and set
      (setter errors ignored), its entries are listed, the activity URL is
      stored on it, and its files are fetched. */
  ghost function VisitBody(w: Walk, o: Out, c: Collection, dir: Baton): (v: Visited)
    requires o.err.None?
    ensures v.dir == dir
    ensures StackWeight(v.subdirs) <= 2 * (Size(c) - 1)
  {
    var o1 := Request(o, Propfind(c.url));
    if !c.propsOk then Visited(Fail(o1, NetworkError(c.url)), dir, [])
    else
      var o2 := Request(AddProps(o1, DirTarget(dir), c.props), ListCollection(c.url));
      if !c.listed then Visited(Fail(o2, NetworkError(c.url)), dir, [])
      else
        var d := FetchDirents(w, o2, c, |c.listing|, dir);
        if d.out.err.Some? then Visited(d.out, dir, d.subdirs)
        else Visited(FinishDirectory(w, d.out, d.files, dir), dir, d.subdirs)
  }

  /** After the listing: store the activity URL on the directory, then
      fetch its files. */
  ghost function FinishDirectory(w: Walk, o: Out, files: seq<FileInfo>, dir: Baton): Out
    requires o.err.None?
  {
    var o1 := Invoke(w.ed, o, ChangeDirProp(dir, WcActivityUrl, Some(w.activityUrl)));
    if o1.err.Some? then o1 else FetchFiles(w.ed, o1, files, dir)
  }

  /** The loop: pop the top frame. A sentinel closes its directory and,
      when it was the last frame, the edit; a pending collection is visited,
      leaving its sentinel and then its subcollections on the stack. */
  ghost function Drive(w: Walk, stack: seq<Frame>, o: Out): Out
    requires stack != [] && o.err.None?
    decreases StackWeight(stack)
  {
    match Last(stack)
    case Sentinel(b) =>
      var o1 := Invoke(w.ed, o, CloseDirectory(b));
      if o1.err.Some? then o1
      else if |stack| == 1 then Invoke(w.ed, o1, CloseEdit)
      else Drive(w, DropLast(stack), o1)
    case Pending(c, parent) =>
      var v := Visit(w, o, c, parent);
      if v.out.err.Some? then v.out
      else
        var rest := DropLast(stack) + [Sentinel(v.dir)];
        StackWeightAppend(DropLast(stack), [Sentinel(v.dir)]);
        StackWeightAppend(rest, v.subdirs);
        assert StackWeight([Sentinel(v.dir)]) == 1 by {
          assert DropLast([Sentinel(v.dir)]) == [];
        }
        Drive(w, rest + v.subdirs, v.out)
  }

  lemma {:induction false} FetchFilesExtends(ed: Editor, o: Out, files: seq<FileInfo>, dir: Baton)
    requires o.err.None?
    ensures o.calls <= FetchFiles(ed, o, files, dir).calls
    decreases |files|
  {
    if files != [] {
      FetchFileExtends(ed, o, Last(files), dir);
      var o1 := FetchFile(ed, o, Last(files), dir);
      if o1.err.None? {
        FetchFilesExtends(ed, o1, DropLast(files), dir);
      }
    }
  }

  /** A visit that succeeds has fetched the directory's properties, listed
      its entries and stored the activity URL on it. */
  lemma VisitStoresActivityUrl(w: Walk, o: Out, c: Collection, dir: Baton)
    requires o.err.None?
    ensures var v := VisitBody(w, o, c, dir);
            v.out.err.None? ==>
              c.propsOk && c.listed &&
              Propfind(c.url) in v.out.calls && ListCollection(c.url) in v.out.calls &&
              ChangeDirProp(dir, WcActivityUrl, Some(w.activityUrl)) in v.out.calls
  {
    var v := VisitBody(w, o, c, dir);
    if v.out.err.None? {
      var o1 := Request(o, Propfind(c.url));
      var o15 := AddProps(o1, DirTarget(dir), c.props);
      var o2 := Request(o15, ListCollection(c.url));
      var d := FetchDirents(w, o2, c, |c.listing|, dir);
      DirentsExtend(w, o2, c, |c.listing|, dir);
      var act := ChangeDirProp(dir, WcActivityUrl, Some(w.activityUrl));
      var o4 := Invoke(w.ed, d.out, act);
      FetchFilesExtends(w.ed, o4, d.files, dir);
      var r := v.out.calls;
      assert r == FetchFiles(w.ed, o4, d.files, dir).calls;
      assert o1.calls[|o.calls|] == Propfind(c.url);
      assert o1.calls <= r;
      assert o2.calls[|o15.calls|] == ListCollection(c.url);
      assert o2.calls <= r;
      assert o4.calls[|d.out.calls|] == act;
    }
  }

  /** svn_ra_dav__do_checkout once begin_checkout has answered: set the
      target revision, open the root, and walk from the root collection,
      whose frame carries the root's baton. */
  ghost function Checkout(ed: Editor, b: Begin, recurse: bool): Out {
    var o1 := Invoke(ed, Start, SetTargetRevision(b.targetRev));
    if o1.err.Some? then o1
    else
      var o2 := Invoke(ed, o1, OpenRoot(IgnoredRevnum));
      if o2.err.Some? then o2
      else Drive(Walk(ed, b.root.url, |o1.calls|, b.activityUrl, recurse), [Pending(b.root, |o1.calls|)], o2)
  }

  /** A non-recursive checkout as it is meant to go: the target revision,
      the root, one visit of the root collection, then closing the root and
      the edit. */
  ghost function RootOnly(ed: Editor, b: Begin): Out {
    var o1 := Invoke(ed, Start, SetTargetRevision(b.targetRev));
    if o1.err.Some? then o1
    else
      var o2 := Invoke(ed, o1, OpenRoot(IgnoredRevnum));
      if o2.err.Some? then o2
      else
        var v := Visit(Walk(ed, b.root.url, 1, b.activityUrl, false), o2, b.root, 1);
        if v.out.err.Some? then v.out
        else
          var o3 := Invoke(ed, v.out, CloseDirectory(1));
          if o3.err.Some? then o3 else Invoke(ed, o3, CloseEdit)
  }

  /** Without recursion the checkout visits the root collection only. */
  lemma NonRecursiveCheckoutVisitsOnlyRoot(ed: Editor, b: Begin)
    ensures Checkout(ed, b, false) == RootOnly(ed, b)
  {
    var o1 := Invoke(ed, Start, SetTargetRevision(b.targetRev));
    if o1.err.None? {
      var o2 := Invoke(ed, o1, OpenRoot(IgnoredRevnum));
      if o2.err.None? {
        var w := Walk(ed, b.root.url, 1, b.activityUrl, false);
        var c := b.root;
        assert Checkout(ed, b, false) == Drive(w, [Pending(c, 1)], o2);
        var v := Visit(w, o2, c, 1);
        assert v == VisitBody(w, o2, c, 1);
        VisitPushesNothing(w, o2, c, 1);
        if v.out.err.None? {
          assert DropLast([Pending(c, 1)]) + [Sentinel(1)] + v.subdirs == [Sentinel(1)];
          assert Drive(w, [Pending(c, 1)], o2) == Drive(w, [Sentinel(1)], v.out);
          assert Last([Sentinel(1)]) == Sentinel(1);
        }
      }
    }
  }

  lemma VisitPushesNothing(w: Walk, o: Out, c: Collection, dir: Baton)
    requires o.err.None? && !w.recurse
    ensures VisitBody(w, o, c, dir).subdirs == []
  {
    if c.propsOk && c.listed {
      var o2 := Request(AddProps(Request(o, Propfind(c.url)), DirTarget(dir), c.props), ListCollection(c.url));
      NoRecursionPushesNothing(w, o2, c, |c.listing|, dir);
    }
  }

  // ---------------------------------------------------------------------
  // The checkout keeps the editor contract
  // ---------------------------------------------------------------------

  /** What a well-behaved server lists: every collection below c, other
      than a collection's entry for itself, has a URL longer than bc_root. */
  ghost predicate WellFormed(c: Collection, bcRoot: string)
    decreases c
  {
    forall j :: 0 <= j < |c.listing| && c.listing[j].CollResource? && c.listing[j].coll.url != c.url ==>
      |c.listing[j].coll.url| > |bcRoot| && WellFormed(c.listing[j].coll, bcRoot)
  }

  /** Frames pushed by a visit: pending subdirectories of the visited
      directory, each one of a well-formed tree. */
  ghost predicate SubdirsOk(w: Walk, fs: seq<Frame>, dir: Baton) {
    forall i :: 0 <= i < |fs| ==>
      fs[i].Pending? && fs[i].parent == dir && |fs[i].coll.url| > |w.bcRoot| && WellFormed(fs[i].coll, w.bcRoot)
  }

  /** The batons of the sentinels on the stack, bottom first. */
  function Sentinels(stack: seq<Frame>): seq<Baton>
    decreases |stack|
  {
    if stack == [] then []
    else Sentinels(DropLast(stack)) + (match Last(stack) case Sentinel(b) => [b] case Pending(_, _) => [])
  }

  /** Every pending frame sits above a sentinel, carries the baton of the
      nearest sentinel below it, and holds a well-formed subdirectory. */
  ghost predicate StackOk(w: Walk, stack: seq<Frame>)
    decreases |stack|
  {
    stack == [] ||
    (StackOk(w, DropLast(stack)) &&
     match Last(stack)
     case Sentinel(_) => true
     case Pending(c, p) =>
       Sentinels(DropLast(stack)) != [] && p == Last(Sentinels(DropLast(stack))) &&
       |c.url| > |w.bcRoot| && WellFormed(c, w.bcRoot))
  }

  lemma {:induction false} PushOk(w: Walk, stack: seq<Frame>, fs: seq<Frame>, dir: Baton)
    requires StackOk(w, stack) && Sentinels(stack) != [] && Last(Sentinels(stack)) == dir
    requires SubdirsOk(w, fs, dir)
    ensures StackOk(w, stack + fs) && Sentinels(stack + fs) == Sentinels(stack)
    decreases |fs|
  {
    if fs == [] {
      assert stack + fs == stack;
    } else {
      assert DropLast(stack + fs) == stack + DropLast(fs);
      assert Last(stack + fs) == Last(fs);
      PushOk(w, stack, DropLast(fs), dir);
    }
  }

  /** The subcollections of a well-formed collection are pushed well formed. */
  lemma VisitPushesWellFormed(w: Walk, o: Out, c: Collection, dir: Baton)
    requires o.err.None? && WellFormed(c, w.bcRoot)
    ensures var d := FetchDirents(w, o, c, |c.listing|, dir);
            d.out.err.None? ==> SubdirsOk(w, d.subdirs, dir)
  {
    var d := FetchDirents(w, o, c, |c.listing|, dir);
    DirentsAreFilters(w, o, c, |c.listing|, dir);
    if d.out.err.None? && w.recurse {
      assert c.listing[..|c.listing|] == c.listing;
      var cs := Subcollections(c.listing, c.url);
      forall i | 0 <= i < |cs|
        ensures |cs[i].url| > |w.bcRoot| && WellFormed(cs[i], w.bcRoot)
      {
        SubcollectionsMembers(c.listing, c.url, cs[i]);
      }
    }
  }

  /** Filling an open file keeps the contract and leaves the file open; on
      success the contract is back where it was. */
  lemma FillFileKeepsContract(ed: Editor, o: Out, f: FileInfo, fb: Baton, s: Shadow)
    requires o.err.None? && Replay(o.calls) == Some(s) && s.file == Some(fb) && !s.delta && !s.ended
    ensures var r := FillFile(ed, o, f, fb);
            Replay(r.calls).Some? && Replay(r.calls).value.file == Some(fb) && !Replay(r.calls).value.ended &&
            (r.err.None? ==> Replay(r.calls) == Some(s))
  {
    var o1 := SimpleFetchFile(ed, o, f.url, None, true, fb, f.content);
    FetchKeepsContract(ed, o, f.url, None, true, fb, f.content, s);
    if o1.err.None? {
      var o2 := AddProps(o1, FileTarget(fb), f.props);
      PropCallsKeepContract(o1.calls, FileTarget(fb), Enumerate(f.props), s);
      assert Replay(o2.calls) == Some(s);
      if DavCheckedIn in f.props {
        Append1(o2.calls, ChangeFileProp(fb, WcVersionUrl, Some(f.props[DavCheckedIn])), s);
      }
    }
  }

  /** Fetching a file into the innermost directory keeps the contract; on
      success the file is closed again. */
  lemma FetchFileKeepsContract(ed: Editor, o: Out, f: FileInfo, dir: Baton, s: Shadow)
    requires o.err.None? && Replay(o.calls) == Some(s) && AtTop(s, dir) && !s.delta && !s.ended
    ensures var r := FetchFile(ed, o, f, dir);
            Replay(r.calls).Some? && (r.err.None? ==> Replay(r.calls) == Some(s))
  {
    var fb := |o.calls|;
    var add := Effect.AddFile(Basename(f.url), dir, None, InvalidRevnum);
    Append1(o.calls, add, s.(file := Some(fb)));
    var o1 := Invoke(ed, o, add);
    if o1.err.None? {
      FilledFileCloses(ed, o1, f, fb, s);
      assert FetchFile(ed, o, f, dir) == Invoke(ed, FillFile(ed, o1, f, fb), CloseFile(fb));
    } else {
      assert FetchFile(ed, o, f, dir) == o1;
    }
  }

  lemma FilledFileCloses(ed: Editor, o: Out, f: FileInfo, fb: Baton, s: Shadow)
    requires o.err.None? && Replay(o.calls) == Some(s.(file := Some(fb))) && s.file.None? && !s.delta && !s.ended
    ensures var r := Invoke(ed, FillFile(ed, o, f, fb), CloseFile(fb));
            Replay(r.calls).Some? && (r.err.None? ==> Replay(r.calls) == Some(s))
  {
    var o2 := FillFile(ed, o, f, fb);
    FillFileKeepsContract(ed, o, f, fb, s.(file := Some(fb)));
    CloseFileStep(o2.calls, fb);
  }

  lemma {:induction false} FetchFilesKeepContract(ed: Editor, o: Out, files: seq<FileInfo>, dir: Baton, s: Shadow)
    requires o.err.None? && Replay(o.calls) == Some(s) && AtTop(s, dir) && !s.delta && !s.ended
    ensures var r := FetchFiles(ed, o, files, dir);
            Replay(r.calls).Some? && (r.err.None? ==> Replay(r.calls) == Some(s))
    decreases |files|
  {
    if files != [] {
      FetchFileKeepsContract(ed, o, Last(files), dir, s);
      var o1 := FetchFile(ed, o, Last(files), dir);
      if o1.err.None? {
        FetchFilesKeepContract(ed, o1, DropLast(files), dir, s);
      }
    }
  }

  /** Once its directory is open, the rest of a visit keeps the contract,
      and on success leaves the contract where it was, with what it pushed
      well-formed subdirectories of the directory. */
  lemma VisitBodyKeepsContract(w: Walk, o: Out, c: Collection, dir: Baton, s: Shadow)
    requires o.err.None? && Replay(o.calls) == Some(s) && AtTop(s, dir) && !s.delta && !s.ended
    requires WellFormed(c, w.bcRoot)
    ensures var v := VisitBody(w, o, c, dir);
            Replay(v.out.calls).Some? &&
            (v.out.err.None? ==> Replay(v.out.calls) == Some(s) && SubdirsOk(w, v.subdirs, dir))
  {
    var o1 := Request(o, Propfind(c.url));
    Append1(o.calls, Propfind(c.url), s);
    if c.propsOk {
      var o15 := AddProps(o1, DirTarget(dir), c.props);
      PropCallsKeepContract(o1.calls, DirTarget(dir), Enumerate(c.props), s);
      assert Replay(o15.calls) == Some(s);
      var o2 := Request(o15, ListCollection(c.url));
      Append1(o15.calls, ListCollection(c.url), s);
      if c.listed {
        DirentsKeepContract(w, o2, c, |c.listing|, dir, s);
        VisitPushesWellFormed(w, o2, c, dir);
        var d := FetchDirents(w, o2, c, |c.listing|, dir);
        if d.out.err.None? {
          FinishDirectoryKeepsContract(w, d.out, d.files, dir, s);
        }
      }
    }
  }

  lemma FinishDirectoryKeepsContract(w: Walk, o: Out, files: seq<FileInfo>, dir: Baton, s: Shadow)
    requires o.err.None? && Replay(o.calls) == Some(s) && AtTop(s, dir) && !s.delta && !s.ended
    ensures var r := FinishDirectory(w, o, files, dir);
            Replay(r.calls).Some? && (r.err.None? ==> Replay(r.calls) == Some(s))
  {
    var c := ChangeDirProp(dir, WcActivityUrl, Some(w.activityUrl));
    Append1(o.calls, c, s);
    var o1 := Invoke(w.ed, o, c);
    if o1.err.None? {
      FetchFilesKeepContract(w.ed, o1, files, dir, s);
    }
  }

  /** A visit keeps the contract; on success the visited directory is the
      innermost open one (newly added unless the walk is at the root) and
      what it pushed are well-formed subdirectories of it. */
  lemma VisitKeepsContract(w: Walk, o: Out, c: Collection, parent: Baton, dirs: seq<Baton>)
    requires o.err.None? && Replay(o.calls) == Some(Shadow(dirs, None, false, false, true, true))
    requires dirs != [] && Last(dirs) == parent
    requires |c.url| <= |w.bcRoot| ==> parent == w.rootBaton
    requires WellFormed(c, w.bcRoot)
    ensures var v := Visit(w, o, c, parent);
            Replay(v.out.calls).Some? &&
            (v.out.err.None? ==>
               Replay(v.out.calls) == Some(Shadow(if |c.url| > |w.bcRoot| then dirs + [v.dir] else dirs, None, false, false, true, true)) &&
               SubdirsOk(w, v.subdirs, v.dir))
  {
    if |c.url| > |w.bcRoot| {
      var add := Effect.AddDirectory(Basename(c.url), parent, None, InvalidRevnum);
      var s1 := Shadow(dirs + [|o.calls|], None, false, false, true, true);
      Append1(o.calls, add, s1);
      var o1 := Invoke(w.ed, o, add);
      if o1.err.None? {
        VisitBodyKeepsContract(w, o1, c, |o.calls|, s1);
      }
    } else {
      VisitBodyKeepsContract(w, o, c, w.rootBaton, Shadow(dirs, None, false, false, true, true));
    }
  }

  /** The loop keeps the contract from any stack whose sentinels are the
      open directories; when it ends without error, it has closed them all
      and then the edit. */
  lemma {:induction false} DriveKeepsContract(w: Walk, stack: seq<Frame>, o: Out)
    requires stack != [] && o.err.None? && StackOk(w, stack)
    requires Replay(o.calls) == Some(Shadow(Sentinels(stack), None, false, false, true, true))
    ensures var r := Drive(w, stack, o);
            Replay(r.calls).Some? && (r.err.None? ==> Complete(r.calls) && Last(r.calls) == CloseEdit)
    decreases StackWeight(stack), 1
  {
    if Last(stack).Sentinel? {
      DriveSentinelKeepsContract(w, stack, o);
    } else {
      DrivePendingKeepsContract(w, stack, o);
    }
  }

  /** DriveKeepsContract when the top frame closes a directory. */
  lemma {:induction false} DriveSentinelKeepsContract(w: Walk, stack: seq<Frame>, o: Out)
    requires stack != [] && o.err.None? && StackOk(w, stack) && Last(stack).Sentinel?
    requires Replay(o.calls) == Some(Shadow(Sentinels(stack), None, false, false, true, true))
    ensures var r := Drive(w, stack, o);
            Replay(r.calls).Some? && (r.err.None? ==> Complete(r.calls) && Last(r.calls) == CloseEdit)
    decreases StackWeight(stack), 0
  {
    var b := Last(stack).dir;
    var rest := DropLast(stack);
    assert Sentinels(stack) == Sentinels(rest) + [b] && StackOk(w, rest);
    var s1 := Shadow(Sentinels(rest), None, false, false, true, true);
    Append1(o.calls, CloseDirectory(b), s1);
    var o1 := Invoke(w.ed, o, CloseDirectory(b));
    if o1.err.None? {
      if rest == [] {
        EndEditKeepsContract(w.ed, o1);
      } else {
        DriveKeepsContract(w, rest, o1);
      }
    }
  }

  /** close_edit once every directory is closed completes the session. */
  lemma EndEditKeepsContract(ed: Editor, o: Out)
    requires o.err.None? && Replay(o.calls) == Some(Shadow([], None, false, false, true, true))
    ensures var r := Invoke(ed, o, CloseEdit);
            Replay(r.calls).Some? && (r.err.None? ==> Complete(r.calls) && Last(r.calls) == CloseEdit)
  {
    Append1(o.calls, CloseEdit, Shadow([], None, false, true, true, true));
  }

  /** DriveKeepsContract when the top frame is a directory still to visit. */
  lemma {:induction false} DrivePendingKeepsContract(w: Walk, stack: seq<Frame>, o: Out)
    requires stack != [] && o.err.None? && StackOk(w, stack) && Last(stack).Pending?
    requires Replay(o.calls) == Some(Shadow(Sentinels(stack), None, false, false, true, true))
    ensures var r := Drive(w, stack, o);
            Replay(r.calls).Some? && (r.err.None? ==> Complete(r.calls) && Last(r.calls) == CloseEdit)
    decreases StackWeight(stack), 0
  {
    var rest := DropLast(stack);
    var c := Last(stack).coll;
    var parent := Last(stack).parent;
    assert Sentinels(stack) == Sentinels(rest);
    VisitKeepsContract(w, o, c, parent, Sentinels(rest));
    var v := Visit(w, o, c, parent);
    if v.out.err.None? {
      var next := rest + [Sentinel(v.dir)];
      assert DropLast(next) == rest;
      PushOk(w, next, v.subdirs, v.dir);
      StackWeightAppend(rest, [Sentinel(v.dir)]);
      StackWeightAppend(next, v.subdirs);
      assert StackWeight([Sentinel(v.dir)]) == 1 by {
        assert DropLast([Sentinel(v.dir)]) == [];
      }
      DriveKeepsContract(w, next + v.subdirs, v.out);
    }
  }

  /** The walk from the root frame, once the root is open, keeps the
      contract and, on success, ends the edit. */
  lemma WalkFromRootKeepsContract(w: Walk, c: Collection, o: Out)
    requires o.err.None? && Replay(o.calls) == Some(Shadow([w.rootBaton], None, false, false, true, true))
    requires c.url == w.bcRoot && WellFormed(c, w.bcRoot)
    ensures var r := Drive(w, [Pending(c, w.rootBaton)], o);
            Replay(r.calls).Some? && (r.err.None? ==> Complete(r.calls) && Last(r.calls) == CloseEdit)
  {
    VisitKeepsContract(w, o, c, w.rootBaton, [w.rootBaton]);
    var v := Visit(w, o, c, w.rootBaton);
    assert v == VisitBody(w, o, c, w.rootBaton);
    if v.out.err.None? {
      assert DropLast([Pending(c, w.rootBaton)]) + [Sentinel(v.dir)] == [Sentinel(v.dir)];
      RootVisitedKeepsContract(w, v);
    }
  }

  /** After the root's visit, the loop goes on from the root's sentinel and
      the root's subdirectories. */
  lemma RootVisitedKeepsContract(w: Walk, v: Visited)
    requires v.out.err.None? && v.dir == w.rootBaton
    requires Replay(v.out.calls) == Some(Shadow([w.rootBaton], None, false, false, true, true))
    requires SubdirsOk(w, v.subdirs, v.dir)
    ensures var r := Drive(w, [Sentinel(v.dir)] + v.subdirs, v.out);
            Replay(r.calls).Some? && (r.err.None? ==> Complete(r.calls) && Last(r.calls) == CloseEdit)
  {
    var next := [Sentinel(v.dir)];
    assert DropLast(next) == [];
    assert Sentinels(next) == [w.rootBaton];
    assert StackOk(w, next);
    PushOk(w, next, v.subdirs, v.dir);
    DriveKeepsContract(w, next + v.subdirs, v.out);
  }

  /** A checkout from a well-formed server never breaks the editor
      contract, and one that succeeds is a complete edit that ends with
      close_edit, every directory and file opened having been closed. */
  lemma CheckoutKeepsContract(ed: Editor, b: Begin, recurse: bool)
    requires WellFormed(b.root, b.root.url)
    ensures var r := Checkout(ed, b, recurse);
            Replay(r.calls).Some? &&
            (r.err.None? ==>
               Complete(r.calls) && Last(r.calls) == CloseEdit &&
               Count(r.calls, OpensDir) == Count(r.calls, ClosesDir) &&
               Count(r.calls, OpensFile) == Count(r.calls, ClosesFile) &&
               Count(r.calls, OpensRoot) == 1)
  {
    var o1 := Invoke(ed, Start, SetTargetRevision(b.targetRev));
    Append1([], SetTargetRevision(b.targetRev), Fresh.(targeted := true));
    if o1.err.None? {
      var o2 := Invoke(ed, o1, OpenRoot(IgnoredRevnum));
      Append1(o1.calls, OpenRoot(IgnoredRevnum), Shadow([1], None, false, false, true, true));
      if o2.err.None? {
        WalkFromRootKeepsContract(Walk(ed, b.root.url, 1, b.activityUrl, recurse), b.root, o2);
      }
    }
    var r := Checkout(ed, b, recurse);
    if r.err.None? {
      CompleteIsBalanced(r.calls);
    }
  }
}
