/** The local access layer's checkout: a depth-first walk over one revision
    of the repository filesystem that drives the editor directly. Every node
    gets its user properties plus three entry properties; directories are
    added and walked only when the checkout recurses; files are added with
    their repository URL as copyfrom path, get their properties and their
    content as a delta stream, and are closed; anything else is skipped.
    Each directory is closed once all of its entries are done, and the first
    error ends the whole drive.

    A directory's entries and a node's property list are hashes; the order
    of `entries` and `Enumerate` stand for their unspecified iteration
    order, and no property below depends on it. */
module LocalCheckout {
  import opened SvnTypes
  import opened DeltaEditor
  import opened DavProps

  // ---------------------------------------------------------------------
  // The filesystem revision being checked out
  // ---------------------------------------------------------------------

  /** What svn_repos_get_committed_info reports for a node: the revision
      that last changed it and that revision's date and author, either of
      which the revision may lack. */
  datatype Committed = Committed(rev: int, date: Option<string>, author: Option<string>)

  /** The answers to the two queries set_any_props makes of a node: its
      property list and its committed information. None is a query that
      fails. */
  datatype Meta = Meta(props: Option<PropMap>, committed: Option<Committed>)

  /** A node of the revision. `listable` is whether svn_fs_dir_entries
      succeeds on a directory; `content` is None when svn_fs_file_contents
      fails, and otherwise the windows svn_txdelta_send_stream makes of the
      file's text. `Other` is a node that is neither file nor directory;
      `Unreadable` is one on which svn_fs_is_dir or svn_fs_is_file fails. */
  datatype Node =
    | Dir(meta: Meta, listable: bool, entries: seq<Entry>)
    | File(meta: Meta, content: Option<seq<Window>>)
    | Other(meta: Meta)
    | Unreadable(meta: Meta)

  datatype Entry = Entry(name: string, node: Node)

  datatype Walker = Walker(ed: Editor, recurse: bool)

  // ---------------------------------------------------------------------
  // set_any_props
  // ---------------------------------------------------------------------

  /** apr_hash_set: a null value removes the key. */
  function HashSet(m: PropMap, k: string, v: Option<string>): PropMap {
    match v
    case None => m - {k}
    case Some(x) => m[k := x]
  }

  /** A run of apr_hash_set calls, in order. */
  function HashSets(m: PropMap, sets: seq<(string, Option<string>)>): PropMap
    decreases |sets|
  {
    if sets == [] then m else HashSets(HashSet(m, sets[0].0, sets[0].1), sets[1..])
  }

  /** The three entry properties as set_any_props writes them: the
      committed revision as "%ld" text, then the date and the author. */
  function EntrySets(c: Committed): seq<(string, Option<string>)> {
    [(EntryCommittedRev, Some(RevToString(c.rev))), (EntryCommittedDate, c.date), (EntryLastAuthor, c.author)]
  }

  /** The node's user properties with the entry properties written over
      them; the date and author are removed when the revision lacks them. */
  function EntryProps(props: PropMap, c: Committed): PropMap {
    HashSets(props, EntrySets(c))
  }

  /** The setter calls for a sequence of properties, one per property. */
  function SetterCalls(t: Target, ps: seq<(string, string)>): (cs: seq<Effect>)
    ensures |cs| == |ps|
    decreases |ps|
  {
    if ps == [] then [] else [SetProp(t, ps[0].0, Some(ps[0].1))] + SetterCalls(t, ps[1..])
  }

  /** Send properties one by one; the first setter error stops the loop. */
  function SendProps(ed: Editor, o: Out, t: Target, ps: seq<(string, string)>): Out
    decreases |ps|
  {
    if ps == [] || o.err.Some? then o
    else SendProps(ed, Invoke(ed, o, SetProp(t, ps[0].0, Some(ps[0].1))), t, ps[1..])
  }

  /** set_any_props: read the node's property list and committed
      information, merge the entry properties in, and send every property
      through the setter that t is bound to. */
  ghost function SetAnyProps(ed: Editor, o: Out, t: Target, meta: Meta): Out {
    if meta.props.None? || meta.committed.None? then Fail(o, FsError)
    else SendProps(ed, o, t, Enumerate(EntryProps(meta.props.value, meta.committed.value)))
  }

  /** The properties a node holds after a sequence of property changes. */
  function PropsAfter(m: PropMap, calls: seq<Effect>): PropMap
    decreases |calls|
  {
    if calls == [] then m
    else
      var m' := match calls[0]
        case ChangeDirProp(_, n, v) => HashSet(m, n, v)
        case ChangeFileProp(_, n, v) => HashSet(m, n, v)
        case _ => m;
      PropsAfter(m', calls[1..])
  }

  // ---------------------------------------------------------------------
  // send_file_contents and the file branch
  // ---------------------------------------------------------------------

  /** Hand windows to the window handler; the first handler error stops. */
  function SendWindows(ed: Editor, o: Out, ws: seq<Window>): Out
    decreases |ws|
  {
    if ws == [] || o.err.Some? then o
    else SendWindows(ed, Invoke(ed, o, SendWindow(Some(ws[0]))), ws[1..])
  }

  /** The window-handler calls for a sequence of windows, one per window. */
  function WindowCalls(ws: seq<Window>): (cs: seq<Effect>)
    ensures |cs| == |ws|
    decreases |ws|
  {
    if ws == [] then [] else [SendWindow(Some(ws[0]))] + WindowCalls(ws[1..])
  }

  /** send_file_contents: open the content stream, apply_textdelta, then
      the stream's windows and the terminating empty window. */
  function SendContents(ed: Editor, o: Out, fb: Baton, content: Option<seq<Window>>): Out
    requires o.err.None?
  {
    if content.None? then Fail(o, FsError)
    else
      var o1 := Invoke(ed, o, ApplyTextDelta(fb));
      if o1.err.Some? then o1
      else
        var o2 := SendWindows(ed, o1, content.value);
        if o2.err.Some? then o2 else Invoke(ed, o2, SendWindow(None))
  }

  /** Everything after add_file: properties, content, close_file. */
  ghost function FillFile(ed: Editor, o: Out, fb: Baton, meta: Meta, content: Option<seq<Window>>): Out
    requires o.err.None?
  {
    var o1 := SetAnyProps(ed, o, FileTarget(fb), meta);
    if o1.err.Some? then o1 else SendAndClose(ed, o1, fb, content)
  }

  /** The file's content, then close_file. */
  function SendAndClose(ed: Editor, o: Out, fb: Baton, content: Option<seq<Window>>): Out
    requires o.err.None?
  {
    var o1 := SendContents(ed, o, fb, content);
    if o1.err.Some? then o1 else Invoke(ed, o1, CloseFile(fb))
  }

  // ---------------------------------------------------------------------
  // walk_tree
  // ---------------------------------------------------------------------

  /** walk_tree: visit every entry of directory d, whose baton is dir and
      whose repository URL is url, then close the directory. */
  ghost function WalkTree(w: Walker, o: Out, d: Node, dir: Baton, url: Path): Out
    requires o.err.None?
    decreases d, 1, 0, 0
  {
    if !d.Dir? || !d.listable then Fail(o, FsError)
    else
      var o1 := WalkEntries(w, o, d, 0, dir, url);
      if o1.err.Some? then o1 else Invoke(w.ed, o1, CloseDirectory(dir))
  }

  /** The loop over d's entries from the i-th on. */
  ghost function WalkEntries(w: Walker, o: Out, d: Node, i: nat, dir: Baton, url: Path): Out
    requires d.Dir? && i <= |d.entries|
    decreases d, 0, |d.entries| - i + 1, 0
  {
    if i == |d.entries| || o.err.Some? then o
    else WalkEntries(w, HandleEntry(w, o, d, i, dir, url), d, i + 1, dir, url)
  }

  /** One iteration of the loop: the i-th entry of d. A directory is only
      handled when the checkout recurses; a node that is neither directory
      nor file is skipped without a call or an error. */
  ghost function HandleEntry(w: Walker, o: Out, d: Node, i: nat, dir: Baton, url: Path): Out
    requires d.Dir? && i < |d.entries| && o.err.None?
    decreases d, 0, |d.entries| - i, 1
  {
    var e := d.entries[i];
    match e.node
    case Unreadable(_) => Fail(o, FsError)
    case Other(_) => o
    case Dir(_, _, _) => if w.recurse then AddSubdir(w, o, d, i, dir, url) else o
    case File(meta, content) => AddFileEntry(w.ed, o, e.name, meta, content, dir, url)
  }

  /** The directory branch: add_directory without ancestry, its
      properties, and the walk of it under its own URL. */
  ghost function AddSubdir(w: Walker, o: Out, d: Node, i: nat, dir: Baton, url: Path): Out
    requires d.Dir? && i < |d.entries| && d.entries[i].node.Dir? && o.err.None?
    decreases d, 0, |d.entries| - i, 0
  {
    var e := d.entries[i];
    var o1 := Invoke(w.ed, o, AddDirectory(e.name, dir, None, InvalidRevnum));
    if o1.err.Some? then o1
    else
      var o2 := SetAnyProps(w.ed, o1, DirTarget(|o.calls|), e.node.meta);
      if o2.err.Some? then o2 else WalkTree(w, o2, e.node, |o.calls|, url + [e.name])
  }

  /** The file branch: add_file with the file's URL as copyfrom path and no
      revision, then properties, content and close_file. */
  ghost function AddFileEntry(ed: Editor, o: Out, name: string, meta: Meta, content: Option<seq<Window>>,
                              dir: Baton, url: Path): Out
    requires o.err.None?
  {
    var o1 := Invoke(ed, o, AddFile(name, dir, Some(url + [name]), InvalidRevnum));
    if o1.err.Some? then o1 else FillFile(ed, o1, |o.calls|, meta, content)
  }

  // ---------------------------------------------------------------------
  // svn_ra_local__checkout
  // ---------------------------------------------------------------------

  /** The checkout of the node at the checked-out path of revision revnum
      (None when the revision root cannot be opened), whose URL is url. */
  ghost function Checkout(ed: Editor, tree: Option<Node>, revnum: int, recurse: bool, url: Path): Out {
    if tree.None? then Fail(Start, FsError)
    else
      var o := OpenEdit(ed, revnum);
      if o.err.Some? then o else DriveRoot(ed, o, tree.value, recurse, url)
  }

  /** set_target_revision, then open_root without a base revision. */
  function OpenEdit(ed: Editor, revnum: int): Out {
    var o1 := Invoke(ed, Start, SetTargetRevision(revnum));
    if o1.err.Some? then o1 else Invoke(ed, o1, OpenRoot(InvalidRevnum))
  }

  /** Once the root is open (its baton is 1): its properties, the walk of
      it, and close_edit. */
  ghost function DriveRoot(ed: Editor, o: Out, root: Node, recurse: bool, url: Path): Out
    requires o.err.None?
  {
    var o1 := SetAnyProps(ed, o, DirTarget(1), root.meta);
    if o1.err.Some? then o1
    else
      var o2 := WalkTree(Walker(ed, recurse), o1, root, 1, url);
      if o2.err.Some? then o2 else Invoke(ed, o2, CloseEdit)
  }

  // ---------------------------------------------------------------------
  // Properties: what set_any_props sends
  // ---------------------------------------------------------------------

  lemma EntryNamesDiffer()
    ensures EntryCommittedRev != EntryCommittedDate
    ensures EntryCommittedRev != EntryLastAuthor
    ensures EntryCommittedDate != EntryLastAuthor
  {
    assert EntryCommittedRev[20] != EntryCommittedDate[20];
    assert EntryCommittedRev[10] != EntryLastAuthor[10];
    assert EntryCommittedDate[10] != EntryLastAuthor[10];
  }

  /** The committed revision is always recorded, as its "%ld" text; date and author are recorded exactly when the revision
      has them. */
  lemma EntryPropsUnfold(props: PropMap, c: Committed)
    ensures EntryProps(props, c) ==
            HashSet(HashSet(props[EntryCommittedRev := RevToString(c.rev)], EntryCommittedDate, c.date),
                    EntryLastAuthor, c.author)
  {
    var sets := EntrySets(c);
    var m1 := HashSet(props, EntryCommittedRev, Some(RevToString(c.rev)));
    var m2 := HashSet(m1, EntryCommittedDate, c.date);
    var m3 := HashSet(m2, EntryLastAuthor, c.author);
    assert HashSets(m3, sets[1..][1..][1..]) == m3;
    assert HashSets(m2, sets[1..][1..]) == m3;
    assert HashSets(m1, sets[1..]) == m3;
  }

  lemma EntryPropsRecordCommitInfo(props: PropMap, c: Committed)
    ensures var m := EntryProps(props, c);
            EntryCommittedRev in m && m[EntryCommittedRev] == RevToString(c.rev) &&
            (EntryCommittedDate in m <==> c.date.Some?) &&
            (c.date.Some? ==> m[EntryCommittedDate] == c.date.value) &&
            (EntryLastAuthor in m <==> c.author.Some?) &&
            (c.author.Some? ==> m[EntryLastAuthor] == c.author.value)
  {
    EntryNamesDiffer();
    EntryPropsUnfold(props, c);
  }

  /** Every property other than the three entry properties is the node's
      own, unchanged: the merge neither adds, drops nor alters one. */
  lemma EntryPropsKeepUserProps(props: PropMap, c: Committed, k: string)
    requires !IsEntryProp(k)
    ensures var m := EntryProps(props, c);
            (k in m <==> k in props) && (k in m ==> m[k] == props[k])
  {
    EntryPropsUnfold(props, c);
  }

  lemma {:induction false} SetterCallsAreSetters(t: Target, ps: seq<(string, string)>)
    ensures forall c :: c in SetterCalls(t, ps) ==> IsSetterCall(t, c)
    decreases |ps|
  {
    if ps != [] {
      SetterCallsAreSetters(t, ps[1..]);
    }
  }

  /** The setter loop makes the calls in order until one fails; it succeeds
      exactly when none of its calls fails, and then it has made them all. */
  lemma {:induction false} SendPropsTrace(ed: Editor, o: Out, t: Target, ps: seq<(string, string)>)
    requires o.err.None?
    ensures var r := SendProps(ed, o, t, ps);
            r.calls <= o.calls + SetterCalls(t, ps) && |o.calls| <= |r.calls| &&
            (r.err.None? <==> NoFailures(ed, |o.calls|, |o.calls| + |ps|)) &&
            (r.err.None? ==> r.calls == o.calls + SetterCalls(t, ps)) &&
            (r.err.Some? ==> |o.calls| < |r.calls| && r.err == Some(EditorError(|r.calls| - 1)) &&
                             |r.calls| - 1 in ed.failing)
    decreases |ps|
  {
    if ps != [] {
      var c := SetProp(t, ps[0].0, Some(ps[0].1));
      var o1 := Invoke(ed, o, c);
      assert o.calls + SetterCalls(t, ps) == o1.calls + SetterCalls(t, ps[1..]);
      if o1.err.None? {
        SendPropsTrace(ed, o1, t, ps[1..]);
        assert NoFailures(ed, |o.calls|, |o.calls| + |ps|) <==>
               |o.calls| !in ed.failing && NoFailures(ed, |o1.calls|, |o1.calls| + |ps[1..]|);
      }
    }
  }

  lemma PropsAfterSetter(a: PropMap, t: Target, k: string, v: string, rest: seq<Effect>)
    ensures PropsAfter(a, [SetProp(t, k, Some(v))] + rest) == PropsAfter(a[k := v], rest)
  {
    var cs := [SetProp(t, k, Some(v))] + rest;
    assert cs[0] == SetProp(t, k, Some(v)) && cs[1..] == rest;
    assert HashSet(a, k, Some(v)) == a[k := v];
  }

  lemma OverlayStep(a: PropMap, m: PropMap, k: string)
    requires k in m
    ensures a[k := m[k]] + (m - {k}) == a + m
  {
  }

  /** Applying the setter calls for a hash's entries, in any iteration
      order, to a node's properties overlays the hash on them. */
  lemma {:induction false} SetterCallsRebuild(a: PropMap, t: Target, m: PropMap)
    ensures PropsAfter(a, SetterCalls(t, Enumerate(m))) == a + m
    decreases |m|
  {
    if |m| == 0 {
      assert m == map[];
      assert a + m == a;
    } else {
      var k :| k in m && Enumerate(m) == [(k, m[k])] + Enumerate(m - {k});
      var rest := SetterCalls(t, Enumerate(m - {k}));
      assert SetterCalls(t, Enumerate(m)) == [SetProp(t, k, Some(m[k]))] + rest;
      PropsAfterSetter(a, t, k, m[k], rest);
      SetterCallsRebuild(a[k := m[k]], t, m - {k});
      OverlayStep(a, m, k);
    }
  }

  /** set_any_props fails with a filesystem error, making no call, when the
      node's properties or committed information cannot be read. When it
      succeeds it has made one setter call on t per merged property and no
      other call, and those calls leave a node without properties holding
      exactly the merged properties. */
  lemma SetAnyPropsSendsEntryProps(ed: Editor, o: Out, t: Target, meta: Meta)
    requires o.err.None?
    ensures var r := SetAnyProps(ed, o, t, meta);
            (meta.props.None? || meta.committed.None? ==> r == Out(o.calls, Some(FsError))) &&
            (r.err.None? ==>
               meta.props.Some? && meta.committed.Some? &&
               var m := EntryProps(meta.props.value, meta.committed.value);
               o.calls <= r.calls && |r.calls| == |o.calls| + |m| &&
               (forall c :: c in r.calls[|o.calls|..] ==> IsSetterCall(t, c)) &&
               PropsAfter(map[], r.calls[|o.calls|..]) == m)
  {
    if meta.props.Some? && meta.committed.Some? {
      var m := EntryProps(meta.props.value, meta.committed.value);
      var r := SetAnyProps(ed, o, t, meta);
      SendPropsTrace(ed, o, t, Enumerate(m));
      if r.err.None? {
        assert r.calls[|o.calls|..] == SetterCalls(t, Enumerate(m));
        SetterCallsAreSetters(t, Enumerate(m));
        SetterCallsRebuild(map[], t, m);
        assert map[] + m == m;
      }
    }
  }

  // ---------------------------------------------------------------------
  // Properties: the editor contract, and stopping at the first error
  // ---------------------------------------------------------------------

  /** A directory ready for its entries: the innermost open directory, with
      no file open, no delta stream being fed and the edit not closed. */
  predicate Idle(s: Shadow, dir: Baton) {
    AtTop(s, dir) && !s.delta && !s.ended
  }

  /** The contract has accepted every call so far and the edit is open. */
  predicate Accepted(o: Out) {
    Replay(o.calls).Some? && !Replay(o.calls).value.ended
  }

  /** An editor error, if any, came from the last call made: nothing was
      called after the failing call. */
  predicate StopsAtError(o: Out) {
    o.err.Some? && o.err.value.EditorError? ==> o.err.value.index + 1 == |o.calls|
  }

  lemma PrefixTrans<T>(a: seq<T>, b: seq<T>, c: seq<T>)
    requires a <= b && b <= c
    ensures a <= c
  {
    assert b[..|a|] == a;
    assert c[..|b|][..|a|] == a;
  }

  lemma {:induction false} SendPropsKeepsContract(ed: Editor, o: Out, t: Target, ps: seq<(string, string)>, s: Shadow)
    requires Replay(o.calls) == Some(s) && TargetOk(s, t) && !s.ended
    ensures Replay(SendProps(ed, o, t, ps).calls) == Some(s)
    decreases |ps|
  {
    if ps != [] && o.err.None? {
      var c := SetProp(t, ps[0].0, Some(ps[0].1));
      assert ReplayStep(s, c, |o.calls|) == Some(s);
      Append1(o.calls, c, s);
      SendPropsKeepsContract(ed, Invoke(ed, o, c), t, ps[1..], s);
    }
  }

  /** set_any_props only sets properties on a node the contract lets them be
      set on, whether it succeeds or not, and stops at a failing setter. */
  lemma SetAnyPropsKeepsContract(ed: Editor, o: Out, t: Target, meta: Meta, s: Shadow)
    requires o.err.None? && Replay(o.calls) == Some(s) && TargetOk(s, t) && !s.ended
    ensures var r := SetAnyProps(ed, o, t, meta);
            o.calls <= r.calls && Replay(r.calls) == Some(s) && StopsAtError(r)
  {
    if meta.props.Some? && meta.committed.Some? {
      var ps := Enumerate(EntryProps(meta.props.value, meta.committed.value));
      SendPropsKeepsContract(ed, o, t, ps, s);
      SendPropsTrace(ed, o, t, ps);
    }
  }

  lemma {:induction false} SendWindowsKeepContract(ed: Editor, o: Out, ws: seq<Window>, s: Shadow)
    requires o.err.None? && Replay(o.calls) == Some(s) && s.delta && !s.ended
    ensures var r := SendWindows(ed, o, ws);
            o.calls <= r.calls && Replay(r.calls) == Some(s) && StopsAtError(r)
    decreases |ws|
  {
    if ws != [] {
      var c := SendWindow(Some(ws[0]));
      Append1(o.calls, c, s);
      var o1 := Invoke(ed, o, c);
      if o1.err.None? {
        SendWindowsKeepContract(ed, o1, ws[1..], s);
      }
    }
  }

  /** send_file_contents feeds one delta stream to the open file and ends it
      with the empty window; on an error the file is still the open one. */
  lemma SendContentsKeepsContract(ed: Editor, o: Out, fb: Baton, content: Option<seq<Window>>, s: Shadow)
    requires o.err.None? && Replay(o.calls) == Some(s) && s.file == Some(fb) && !s.delta && !s.ended
    ensures var r := SendContents(ed, o, fb, content);
            o.calls <= r.calls && StopsAtError(r) &&
            Replay(r.calls).Some? && Replay(r.calls).value.dirs == s.dirs &&
            Replay(r.calls).value.file == Some(fb) && !Replay(r.calls).value.ended &&
            (r.err.None? ==> Replay(r.calls) == Some(s))
  {
    if content.Some? {
      var s1 := s.(delta := true);
      Append1(o.calls, ApplyTextDelta(fb), s1);
      var o1 := Invoke(ed, o, ApplyTextDelta(fb));
      if o1.err.None? {
        SendWindowsKeepContract(ed, o1, content.value, s1);
        var o2 := SendWindows(ed, o1, content.value);
        if o2.err.None? {
          Append1(o2.calls, SendWindow(None), s);
        }
      }
    }
  }

  /** After add_file, the file branch leaves the contract with the file
      closed when it succeeds, and in the same directory either way. */
  lemma FillFileKeepsContract(ed: Editor, o: Out, fb: Baton, meta: Meta, content: Option<seq<Window>>, s: Shadow)
    requires o.err.None? && Replay(o.calls) == Some(s) && s.file == Some(fb) && !s.delta && !s.ended
    ensures var r := FillFile(ed, o, fb, meta, content);
            o.calls <= r.calls && StopsAtError(r) &&
            Replay(r.calls).Some? && Replay(r.calls).value.dirs == s.dirs && !Replay(r.calls).value.ended &&
            (r.err.None? ==> Replay(r.calls) == Some(s.(file := None)))
  {
    SetAnyPropsKeepsContract(ed, o, FileTarget(fb), meta, s);
    var o1 := SetAnyProps(ed, o, FileTarget(fb), meta);
    if o1.err.None? {
      SendContentsKeepsContract(ed, o1, fb, content, s);
      var o2 := SendContents(ed, o1, fb, content);
      if o2.err.None? {
        CloseFileStep(o2.calls, fb);
      }
      PrefixTrans(o.calls, o1.calls, SendAndClose(ed, o1, fb, content).calls);
    }
  }

  /** walk_tree is accepted by the editor contract and stops at the first
      failing call. When it succeeds it has closed dir as its last call and
      left the contract where it found it, minus dir: every directory it
      opened below dir was closed before dir. */
  lemma {:induction false} WalkTreeKeepsContract(w: Walker, o: Out, d: Node, dir: Baton, url: Path, s: Shadow)
    requires o.err.None? && Replay(o.calls) == Some(s) && Idle(s, dir)
    ensures var r := WalkTree(w, o, d, dir, url);
            o.calls <= r.calls && Accepted(r) && StopsAtError(r) &&
            (r.err.None? ==> |r.calls| > 0 && Last(r.calls) == CloseDirectory(dir) &&
                             Replay(r.calls) == Some(s.(dirs := DropLast(s.dirs))))
    decreases d, 1, 0, 0
  {
    if d.Dir? && d.listable {
      WalkEntriesKeepContract(w, o, d, 0, dir, url, s);
      var o1 := WalkEntries(w, o, d, 0, dir, url);
      if o1.err.None? {
        Append1(o1.calls, CloseDirectory(dir), s.(dirs := DropLast(s.dirs)));
      }
    }
  }

  lemma {:induction false} WalkEntriesKeepContract(w: Walker, o: Out, d: Node, i: nat, dir: Baton, url: Path, s: Shadow)
    requires d.Dir? && i <= |d.entries| && Replay(o.calls) == Some(s) && Idle(s, dir) && StopsAtError(o)
    ensures var r := WalkEntries(w, o, d, i, dir, url);
            o.calls <= r.calls && Accepted(r) && StopsAtError(r) &&
            (r.err.None? ==> Replay(r.calls) == Some(s))
    decreases d, 0, |d.entries| - i + 1, 0
  {
    if i < |d.entries| && o.err.None? {
      HandleEntryKeepsContract(w, o, d, i, dir, url, s);
      var o1 := HandleEntry(w, o, d, i, dir, url);
      WalkEntriesStep(w, o, d, i, dir, url, o1);
      if o1.err.None? {
        WalkRestKeepsContract(w, o, o1, d, i, dir, url, s);
      }
    }
  }

  /** The entries after the i-th, once the i-th left the contract's state
      as it was. */
  lemma {:induction false} WalkRestKeepsContract(w: Walker, o: Out, o1: Out, d: Node, i: nat, dir: Baton, url: Path, s: Shadow)
    requires d.Dir? && i < |d.entries| && o.calls <= o1.calls && o1.err.None?
    requires Replay(o1.calls) == Some(s) && Idle(s, dir)
    ensures var r := WalkEntries(w, o1, d, i + 1, dir, url);
            o.calls <= r.calls && Accepted(r) && StopsAtError(r) &&
            (r.err.None? ==> Replay(r.calls) == Some(s))
    decreases d, 0, |d.entries| - i, 2
  {
    WalkEntriesKeepContract(w, o1, d, i + 1, dir, url, s);
    PrefixTrans(o.calls, o1.calls, WalkEntries(w, o1, d, i + 1, dir, url).calls);
  }


  /** One turn of the entry loop: it handles the i-th entry, then goes on
      from the next one unless that failed. */
  lemma WalkEntriesStep(w: Walker, o: Out, d: Node, i: nat, dir: Baton, url: Path, o1: Out)
    requires d.Dir? && i < |d.entries| && o.err.None? && o1 == HandleEntry(w, o, d, i, dir, url)
    ensures WalkEntries(w, o, d, i, dir, url) == if o1.err.Some? then o1 else WalkEntries(w, o1, d, i + 1, dir, url)
  {
    if o1.err.Some? {
      assert WalkEntries(w, o1, d, i + 1, dir, url) == o1;
    }
  }

  lemma {:induction false} HandleEntryKeepsContract(w: Walker, o: Out, d: Node, i: nat, dir: Baton, url: Path, s: Shadow)
    requires d.Dir? && i < |d.entries| && o.err.None? && Replay(o.calls) == Some(s) && Idle(s, dir)
    ensures var r := HandleEntry(w, o, d, i, dir, url);
            o.calls <= r.calls && Accepted(r) && StopsAtError(r) &&
            (r.err.None? ==> Replay(r.calls) == Some(s))
    decreases d, 0, |d.entries| - i, 1
  {
    var e := d.entries[i];
    match e.node
    case Dir(_, _, _) =>
      if w.recurse {
        AddSubdirKeepsContract(w, o, d, i, dir, url, s);
      }
    case File(meta, content) =>
      AddFileEntryKeepsContract(w.ed, o, e.name, meta, content, dir, url, s);
    case Other(_) =>
    case Unreadable(_) =>
  }

  lemma {:induction false} AddSubdirKeepsContract(w: Walker, o: Out, d: Node, i: nat, dir: Baton, url: Path, s: Shadow)
    requires d.Dir? && i < |d.entries| && d.entries[i].node.Dir? && o.err.None?
    requires Replay(o.calls) == Some(s) && Idle(s, dir)
    ensures var r := AddSubdir(w, o, d, i, dir, url);
            o.calls <= r.calls && Accepted(r) && StopsAtError(r) &&
            (r.err.None? ==> Replay(r.calls) == Some(s))
    decreases d, 0, |d.entries| - i, 0
  {
    var e := d.entries[i];
    var b := |o.calls|;
    var c := AddDirectory(e.name, dir, None, InvalidRevnum);
    var s1 := s.(dirs := s.dirs + [b]);
    Append1(o.calls, c, s1);
    var o1 := Invoke(w.ed, o, c);
    if o1.err.None? {
      SetAnyPropsKeepsContract(w.ed, o1, DirTarget(b), e.node.meta, s1);
      var o2 := SetAnyProps(w.ed, o1, DirTarget(b), e.node.meta);
      if o2.err.None? {
        assert DropLast(s1.dirs) == s.dirs;
        WalkTreeKeepsContract(w, o2, e.node, b, url + [e.name], s1);
        PrefixTrans(o.calls, o2.calls, WalkTree(w, o2, e.node, b, url + [e.name]).calls);
      }
    }
  }

  lemma AddFileEntryKeepsContract(ed: Editor, o: Out, name: string, meta: Meta, content: Option<seq<Window>>,
                                  dir: Baton, url: Path, s: Shadow)
    requires o.err.None? && Replay(o.calls) == Some(s) && Idle(s, dir)
    ensures var r := AddFileEntry(ed, o, name, meta, content, dir, url);
            o.calls <= r.calls && Accepted(r) && StopsAtError(r) &&
            (r.err.None? ==> Replay(r.calls) == Some(s))
  {
    var b := |o.calls|;
    var c := AddFile(name, dir, Some(url + [name]), InvalidRevnum);
    var s1 := s.(file := Some(b), delta := false);
    Append1(o.calls, c, s1);
    var o1 := Invoke(ed, o, c);
    if o1.err.None? {
      FillFileKeepsContract(ed, o1, b, meta, content, s1);
    }
  }

  /** What a whole drive promises the editor: every call was accepted by
      the contract and nothing was called after a failing call; close_edit,
      if made at all, was the last call and made once; and a drive without
      error is a complete session that closes the root directory and then
      the edit. */
  predicate HonoursContract(r: Out) {
    Replay(r.calls).Some? && StopsAtError(r) &&
    (CloseEdit in r.calls ==> Last(r.calls) == CloseEdit && CloseEdit !in DropLast(r.calls)) &&
    (r.err.None? ==> Complete(r.calls) && |r.calls| >= 2 &&
                     r.calls[|r.calls| - 2] == CloseDirectory(1) && Last(r.calls) == CloseEdit)
  }

  /** A drive that stops with an error while the edit is still open keeps
      the contract: close_edit was never called. */
  lemma StoppedHonoursContract(r: Out)
    requires r.err.Some? && Accepted(r) && StopsAtError(r)
    ensures HonoursContract(r)
  {
    OpenSessionHasNoCloseEdit(r.calls);
  }

  /** The last step of the drive: close_edit once the walk succeeded. A
      failing close_edit is the only error that leaves close_edit in the
      trace, as its last call. */
  lemma CloseEditStep(ed: Editor, o: Out)
    requires o.err.None? && |o.calls| > 0 && Last(o.calls) == CloseDirectory(1)
    requires Replay(o.calls) == Some(Started)
    ensures o.calls <= Invoke(ed, o, CloseEdit).calls
    ensures HonoursContract(Invoke(ed, o, CloseEdit))
  {
    Append1(o.calls, CloseEdit, Started.(ended := true));
    OpenSessionHasNoCloseEdit(o.calls);
    assert DropLast(o.calls + [CloseEdit]) == o.calls;
  }

  /** With the root open, the rest of the drive is accepted by the contract
      and stops at the first failing call. On success it closes the root and
      then the edit, completing the session; after an error close_edit
      appears only as the failing call itself. */
  lemma DriveRootKeepsContract(ed: Editor, o: Out, root: Node, recurse: bool, url: Path)
    requires o.err.None? && |o.calls| == 2 && Replay(o.calls) == Some(Started.(dirs := [1]))
    ensures var r := DriveRoot(ed, o, root, recurse, url);
            o.calls <= r.calls && HonoursContract(r)
  {
    var s := Started.(dirs := [1]);
    SetAnyPropsKeepsContract(ed, o, DirTarget(1), root.meta, s);
    var o1 := SetAnyProps(ed, o, DirTarget(1), root.meta);
    if o1.err.None? {
      WalkRootKeepsContract(ed, o1, root, recurse, url);
      PrefixTrans(o.calls, o1.calls, DriveRoot(ed, o, root, recurse, url).calls);
    } else {
      StoppedHonoursContract(o1);
    }
  }

  /** DriveRootKeepsContract once the root's properties are sent. */
  lemma WalkRootKeepsContract(ed: Editor, o1: Out, root: Node, recurse: bool, url: Path)
    requires o1.err.None? && Replay(o1.calls) == Some(Started.(dirs := [1]))
    ensures var o2 := WalkTree(Walker(ed, recurse), o1, root, 1, url);
            var r := if o2.err.Some? then o2 else Invoke(ed, o2, CloseEdit);
            o1.calls <= r.calls && HonoursContract(r)
  {
    var s := Started.(dirs := [1]);
    WalkTreeKeepsContract(Walker(ed, recurse), o1, root, 1, url, s);
    var o2 := WalkTree(Walker(ed, recurse), o1, root, 1, url);
    if o2.err.None? {
      assert s.(dirs := DropLast(s.dirs)) == Started;
      CloseEditStep(ed, o2);
      PrefixTrans(o1.calls, o2.calls, Invoke(ed, o2, CloseEdit).calls);
    } else {
      StoppedHonoursContract(o2);
    }
  }

  /** The session starts with set_target_revision(revnum) and then
      open_root, which opens directory baton 1. */
  lemma OpenEditKeepsContract(ed: Editor, revnum: int)
    ensures var o := OpenEdit(ed, revnum);
            Accepted(o) && StopsAtError(o) && 1 <= |o.calls| <= 2 &&
            o.calls <= [SetTargetRevision(revnum), OpenRoot(InvalidRevnum)] &&
            (o.err.None? ==> |o.calls| == 2 && Replay(o.calls) == Some(Started.(dirs := [1])))
  {
    var o1 := Invoke(ed, Start, SetTargetRevision(revnum));
    Append1([], SetTargetRevision(revnum), Fresh.(targeted := true));
    if o1.err.None? {
      Append1(o1.calls, OpenRoot(InvalidRevnum), Started.(dirs := [1]));
    }
  }

  /** svn_ra_local__checkout is accepted by the editor contract and stops
      at the first failing call: after an error it makes no further call,
      and close_edit appears only if it was itself the failing call. A
      successful checkout is a complete session that starts with
      set_target_revision(revnum) and open_root(invalid revision) and ends
      by closing the root directory and then the edit. */
  lemma CheckoutKeepsContract(ed: Editor, tree: Option<Node>, revnum: int, recurse: bool, url: Path)
    ensures var r := Checkout(ed, tree, revnum, recurse, url);
            HonoursContract(r) &&
            (r.err.None? ==> r.calls[..2] == [SetTargetRevision(revnum), OpenRoot(InvalidRevnum)])
  {
    if tree.Some? {
      OpenEditKeepsContract(ed, revnum);
      var o := OpenEdit(ed, revnum);
      if o.err.None? {
        DriveRootKeepsContract(ed, o, tree.value, recurse, url);
        assert Checkout(ed, tree, revnum, recurse, url) == DriveRoot(ed, o, tree.value, recurse, url);
      } else {
        StoppedHonoursContract(o);
      }
    } else {
      StoppedHonoursContract(Checkout(ed, tree, revnum, recurse, url));
    }
  }

  /** A successful checkout closes every directory and file it opens. */
  lemma CheckoutIsBalanced(ed: Editor, tree: Option<Node>, revnum: int, recurse: bool, url: Path)
    requires Checkout(ed, tree, revnum, recurse, url).err.None?
    ensures var r := Checkout(ed, tree, revnum, recurse, url);
            Count(r.calls, OpensDir) == Count(r.calls, ClosesDir) &&
            Count(r.calls, OpensFile) == Count(r.calls, ClosesFile)
  {
    CheckoutKeepsContract(ed, tree, revnum, recurse, url);
    CompleteIsBalanced(Checkout(ed, tree, revnum, recurse, url).calls);
  }

  // ---------------------------------------------------------------------
  // Properties: the calls a file entry makes, in order
  // ---------------------------------------------------------------------

  lemma {:induction false} SendWindowsTrace(ed: Editor, o: Out, ws: seq<Window>)
    requires o.err.None?
    ensures var r := SendWindows(ed, o, ws);
            r.calls <= o.calls + WindowCalls(ws) && |o.calls| <= |r.calls| &&
            (r.err.None? <==> NoFailures(ed, |o.calls|, |o.calls| + |ws|)) &&
            (r.err.None? ==> r.calls == o.calls + WindowCalls(ws)) &&
            (r.err.Some? ==> |o.calls| < |r.calls| && r.err == Some(EditorError(|r.calls| - 1)) &&
                             |r.calls| - 1 in ed.failing)
    decreases |ws|
  {
    if ws != [] {
      var c := SendWindow(Some(ws[0]));
      var o1 := Invoke(ed, o, c);
      assert o.calls + WindowCalls(ws) == o1.calls + WindowCalls(ws[1..]);
      if o1.err.None? {
        SendWindowsTrace(ed, o1, ws[1..]);
        assert NoFailures(ed, |o.calls|, |o.calls| + |ws|) <==>
               |o.calls| !in ed.failing && NoFailures(ed, |o1.calls|, |o1.calls| + |ws[1..]|);
      }
    }
  }

  /** Every query set_any_props makes succeeds. */
  predicate MetaReadable(meta: Meta) {
    meta.props.Some? && meta.committed.Some?
  }

  /** The properties set_any_props sends, or none when it cannot read them. */
  function SentProps(meta: Meta): PropMap {
    if MetaReadable(meta) then EntryProps(meta.props.value, meta.committed.value) else map[]
  }

  /** The stream's windows, or none when it cannot be opened. */
  function StreamWindows(content: Option<seq<Window>>): seq<Window> {
    if content.Some? then content.value else []
  }

  /** The calls the file branch makes for a file added as baton fb when
      nothing fails: add_file, its properties, apply_textdelta, the
      windows, the terminating empty window and close_file. */
  ghost function FileEntryCalls(name: string, dir: Baton, url: Path, fb: Baton, meta: Meta,
                                content: Option<seq<Window>>): seq<Effect> {
    [AddFile(name, dir, Some(url + [name]), InvalidRevnum)] + FillFileCalls(fb, meta, content)
  }

  /** After o, r made the start of the planned calls plan, and all of
      them when it ended without error; an error r ended with is either a
      filesystem error or that of the editor call r made last. */
  predicate RanPrefixOf(ed: Editor, o: Out, r: Out, plan: seq<Effect>) {
    o.calls <= r.calls && r.calls <= o.calls + plan &&
    (r.err.None? ==> r.calls == o.calls + plan) &&
    (r.err.Some? ==> r.err == Some(FsError) ||
                     (|o.calls| < |r.calls| && r.err == Some(EditorError(|r.calls| - 1)) &&
                      |r.calls| - 1 in ed.failing))
  }

  /** One editor call runs the plan made of that call. */
  lemma InvokeRuns(ed: Editor, o: Out, c: Effect)
    requires o.err.None?
    ensures RanPrefixOf(ed, o, Invoke(ed, o, c), [c])
  { }

  /** Running p1 and then, if nothing failed, p2 runs p1 + p2. */
  lemma RanThen(ed: Editor, o: Out, o1: Out, r: Out, p1: seq<Effect>, p2: seq<Effect>)
    requires RanPrefixOf(ed, o, o1, p1)
    requires o1.err.Some? ==> r == o1
    requires o1.err.None? ==> RanPrefixOf(ed, o1, r, p2)
    ensures RanPrefixOf(ed, o, r, p1 + p2)
  {
    assert o.calls + (p1 + p2) == o.calls + p1 + p2;
    if o1.err.None? {
      PrefixTrans(o.calls, o1.calls, r.calls);
      assert o1.calls == o.calls + p1;
    } else {
      PrefixTrans(o1.calls, o.calls + p1, o.calls + p1 + p2);
    }
  }

  /** RanThen where the first step is a single editor call. */
  lemma InvokeThen(ed: Editor, o: Out, c: Effect, r: Out, p: seq<Effect>)
    requires o.err.None?
    requires Invoke(ed, o, c).err.Some? ==> r == Invoke(ed, o, c)
    requires Invoke(ed, o, c).err.None? ==> RanPrefixOf(ed, Invoke(ed, o, c), r, p)
    ensures RanPrefixOf(ed, o, r, [c] + p)
  {
    InvokeRuns(ed, o, c);
    RanThen(ed, o, Invoke(ed, o, c), r, [c], p);
  }

  /** The stream part of the file branch makes apply_textdelta, the
      windows and the empty window, in order, until one fails; a stream
      that cannot be opened is a filesystem error before any call. */
  lemma SendContentsTrace(ed: Editor, o: Out, fb: Baton, content: Option<seq<Window>>)
    requires o.err.None?
    ensures var r := SendContents(ed, o, fb, content);
            RanPrefixOf(ed, o, r, [ApplyTextDelta(fb)] + WindowCalls(StreamWindows(content)) + [SendWindow(None)]) &&
            (content.None? <==> r.err == Some(FsError)) &&
            (content.None? ==> r.calls == o.calls)
  {
    if content.Some? {
      var o1 := Invoke(ed, o, ApplyTextDelta(fb));
      InvokeRuns(ed, o, ApplyTextDelta(fb));
      if o1.err.None? {
        SendWindowsTrace(ed, o1, content.value);
        var o2 := SendWindows(ed, o1, content.value);
        if o2.err.None? {
          InvokeRuns(ed, o2, SendWindow(None));
        }
        RanThen(ed, o1, o2, SendContents(ed, o, fb, content), WindowCalls(content.value), [SendWindow(None)]);
      }
      RanThen(ed, o, o1, SendContents(ed, o, fb, content),
              [ApplyTextDelta(fb)], WindowCalls(content.value) + [SendWindow(None)]);
      assert [ApplyTextDelta(fb)] + (WindowCalls(content.value) + [SendWindow(None)]) ==
             [ApplyTextDelta(fb)] + WindowCalls(content.value) + [SendWindow(None)];
    }
  }

  /** set_any_props makes its setter calls in order until one fails. */
  lemma SetAnyPropsTrace(ed: Editor, o: Out, t: Target, meta: Meta)
    requires o.err.None?
    ensures var r := SetAnyProps(ed, o, t, meta);
            RanPrefixOf(ed, o, r, SetterCalls(t, Enumerate(SentProps(meta)))) &&
            (r.err.None? ==> MetaReadable(meta))
  {
    if MetaReadable(meta) {
      SendPropsTrace(ed, o, t, Enumerate(SentProps(meta)));
    }
  }

  /** The calls after add_file when nothing fails. */
  ghost function FillFileCalls(fb: Baton, meta: Meta, content: Option<seq<Window>>): seq<Effect> {
    SetterCalls(FileTarget(fb), Enumerate(SentProps(meta))) + StreamCalls(fb, content)
  }

  /** The content and close_file calls when nothing fails. */
  function StreamCalls(fb: Baton, content: Option<seq<Window>>): seq<Effect> {
    [ApplyTextDelta(fb)] + WindowCalls(StreamWindows(content)) + [SendWindow(None), CloseFile(fb)]
  }

  lemma SendAndCloseTrace(ed: Editor, o: Out, fb: Baton, content: Option<seq<Window>>)
    requires o.err.None?
    ensures var r := SendAndClose(ed, o, fb, content);
            RanPrefixOf(ed, o, r, StreamCalls(fb, content)) && (r.err.None? ==> content.Some?)
  {
    SendContentsTrace(ed, o, fb, content);
    var o1 := SendContents(ed, o, fb, content);
    var stream := [ApplyTextDelta(fb)] + WindowCalls(StreamWindows(content)) + [SendWindow(None)];
    if o1.err.None? {
      InvokeRuns(ed, o1, CloseFile(fb));
    }
    RanThen(ed, o, o1, SendAndClose(ed, o, fb, content), stream, [CloseFile(fb)]);
    assert StreamCalls(fb, content) == stream + [CloseFile(fb)];
  }

  lemma FillFileTrace(ed: Editor, o: Out, fb: Baton, meta: Meta, content: Option<seq<Window>>)
    requires o.err.None?
    ensures var r := FillFile(ed, o, fb, meta, content);
            RanPrefixOf(ed, o, r, FillFileCalls(fb, meta, content)) &&
            (r.err.None? ==> MetaReadable(meta) && content.Some?)
  {
    var o1 := SetAnyProps(ed, o, FileTarget(fb), meta);
    SetAnyPropsTrace(ed, o, FileTarget(fb), meta);
    if o1.err.None? {
      SendAndCloseTrace(ed, o1, fb, content);
    }
    RanThen(ed, o, o1, FillFile(ed, o, fb, meta, content),
            SetterCalls(FileTarget(fb), Enumerate(SentProps(meta))), StreamCalls(fb, content));
  }

  /** The file branch makes add_file under dir with the file's URL as
      copyfrom path, then the merged properties on the new file, then
      apply_textdelta, the stream's windows, the empty window, close_file,
      in that order; a failure cuts that sequence short. */
  lemma AddFileEntryTrace(ed: Editor, o: Out, name: string, meta: Meta, content: Option<seq<Window>>,
                          dir: Baton, url: Path)
    requires o.err.None?
    ensures var r := AddFileEntry(ed, o, name, meta, content, dir, url);
            |o.calls| < |r.calls| &&
            RanPrefixOf(ed, o, r, FileEntryCalls(name, dir, url, |o.calls|, meta, content)) &&
            (r.err.None? ==> MetaReadable(meta) && content.Some?)
  {
    var add := AddFile(name, dir, Some(url + [name]), InvalidRevnum);
    var o1 := Invoke(ed, o, add);
    if o1.err.None? {
      FillFileTrace(ed, o1, |o.calls|, meta, content);
    }
    InvokeThen(ed, o, add, AddFileEntry(ed, o, name, meta, content, dir, url), FillFileCalls(|o.calls|, meta, content));
  }

  // ---------------------------------------------------------------------
  // Properties: a walk without recursion stays in its directory
  // ---------------------------------------------------------------------

  /** A call a walk of dir makes when it does not recurse: add a file under
      dir, act on the file it added, or close dir. */
  predicate FlatCall(c: Effect, dir: Baton) {
    (c.AddFile? && c.parent == dir) || c.ChangeFileProp? || c.ApplyTextDelta? || c.SendWindow? ||
    c.CloseFile? || c == CloseDirectory(dir)
  }

  predicate FlatFrom(calls: seq<Effect>, from: nat, dir: Baton) {
    forall j :: from <= j < |calls| ==> FlatCall(calls[j], dir)
  }

  lemma PrefixMembers<T>(a: seq<T>, r: seq<T>, f: seq<T>)
    requires r <= a + f && |a| <= |r|
    ensures a <= r && forall j :: |a| <= j < |r| ==> r[j] in f
  {
    forall j | |a| <= j < |r|
      ensures r[j] in f
    {
      assert r[j] == (a + f)[j] == f[j - |a|];
    }
  }

  lemma {:induction false} WindowCallsAreWindows(ws: seq<Window>)
    ensures forall c :: c in WindowCalls(ws) ==> c.SendWindow?
    decreases |ws|
  {
    if ws != [] {
      WindowCallsAreWindows(ws[1..]);
    }
  }

  lemma FileEntryCallsAreFlat(name: string, dir: Baton, url: Path, fb: Baton, meta: Meta, content: Option<seq<Window>>)
    ensures forall c :: c in FileEntryCalls(name, dir, url, fb, meta, content) ==> FlatCall(c, dir)
  {
    var props := SetterCalls(FileTarget(fb), Enumerate(SentProps(meta)));
    var ws := WindowCalls(StreamWindows(content));
    SetterCallsAreSetters(FileTarget(fb), Enumerate(SentProps(meta)));
    WindowCallsAreWindows(StreamWindows(content));
    assert FileEntryCalls(name, dir, url, fb, meta, content) ==
           [AddFile(name, dir, Some(url + [name]), InvalidRevnum)] + props + [ApplyTextDelta(fb)] + ws +
           [SendWindow(None), CloseFile(fb)];
  }

  lemma AddFileEntryIsFlat(ed: Editor, o: Out, name: string, meta: Meta, content: Option<seq<Window>>,
                           dir: Baton, url: Path)
    requires o.err.None?
    ensures var r := AddFileEntry(ed, o, name, meta, content, dir, url);
            o.calls <= r.calls && FlatFrom(r.calls, |o.calls|, dir)
  {
    var r := AddFileEntry(ed, o, name, meta, content, dir, url);
    AddFileEntryTrace(ed, o, name, meta, content, dir, url);
    PrefixMembers(o.calls, r.calls, FileEntryCalls(name, dir, url, |o.calls|, meta, content));
    FileEntryCallsAreFlat(name, dir, url, |o.calls|, meta, content);
  }

  /** Without recursion, walk_tree makes no directory call other than
      closing its own directory, adds files only directly under it, and
      never sets a directory property: subdirectories are not entered. */
  lemma NonRecursiveWalkIsFlat(w: Walker, o: Out, d: Node, dir: Baton, url: Path)
    requires !w.recurse && o.err.None?
    ensures var r := WalkTree(w, o, d, dir, url);
            o.calls <= r.calls && FlatFrom(r.calls, |o.calls|, dir)
  {
    if d.Dir? && d.listable {
      NonRecursiveEntriesAreFlat(w, o, d, 0, dir, url);
    }
  }

  lemma {:induction false} NonRecursiveEntriesAreFlat(w: Walker, o: Out, d: Node, i: nat, dir: Baton, url: Path)
    requires !w.recurse && d.Dir? && i <= |d.entries|
    ensures var r := WalkEntries(w, o, d, i, dir, url);
            o.calls <= r.calls && FlatFrom(r.calls, |o.calls|, dir)
    decreases |d.entries| - i
  {
    if i < |d.entries| && o.err.None? {
      var e := d.entries[i];
      var o1 := HandleEntry(w, o, d, i, dir, url);
      if e.node.File? {
        AddFileEntryIsFlat(w.ed, o, e.name, e.node.meta, e.node.content, dir, url);
      }
      assert o.calls <= o1.calls && FlatFrom(o1.calls, |o.calls|, dir);
      NonRecursiveEntriesAreFlat(w, o1, d, i + 1, dir, url);
      var r := WalkEntries(w, o1, d, i + 1, dir, url);
      assert WalkEntries(w, o, d, i, dir, url) == r;
      PrefixTrans(o.calls, o1.calls, r.calls);
    } else {
      assert WalkEntries(w, o, d, i, dir, url) == o;
    }
  }

  // ---------------------------------------------------------------------
  // Properties: when the checkout succeeds
  // ---------------------------------------------------------------------

  /** Every query walk_tree makes of directory d and what it visits below
      succeeds: d can be listed and each entry it handles can be read. */
  predicate ReadableDir(d: Node, recurse: bool)
    decreases d, 0
  {
    d.Dir? && d.listable && forall i :: 0 <= i < |d.entries| ==> ReadableEntry(d.entries[i].node, recurse)
  }

  /** Every query the loop makes of entry node n succeeds. A subdirectory
      is only queried when the checkout recurses. */
  predicate ReadableEntry(n: Node, recurse: bool)
    decreases n, 1
  {
    match n
    case Dir(meta, _, _) => !recurse || (MetaReadable(meta) && ReadableDir(n, recurse))
    case File(meta, content) => MetaReadable(meta) && content.Some?
    case Other(_) => true
    case Unreadable(_) => false
  }

  lemma SetAnyPropsSucceeds(ed: Editor, o: Out, t: Target, meta: Meta)
    requires o.err.None?
    ensures var r := SetAnyProps(ed, o, t, meta);
            (r.err.None? ==> MetaReadable(meta)) &&
            (MetaReadable(meta) && ed.failing == {} ==> r.err.None?)
  {
    if MetaReadable(meta) {
      SendPropsTrace(ed, o, t, Enumerate(SentProps(meta)));
    }
  }

  lemma AddFileEntrySucceeds(ed: Editor, o: Out, name: string, meta: Meta, content: Option<seq<Window>>,
                             dir: Baton, url: Path)
    requires o.err.None?
    ensures var r := AddFileEntry(ed, o, name, meta, content, dir, url);
            (r.err.None? ==> MetaReadable(meta) && content.Some?) &&
            (MetaReadable(meta) && content.Some? && ed.failing == {} ==> r.err.None?)
  {
    AddFileEntryTrace(ed, o, name, meta, content, dir, url);
    var o1 := Invoke(ed, o, AddFile(name, dir, Some(url + [name]), InvalidRevnum));
    if o1.err.None? && MetaReadable(meta) && content.Some? && ed.failing == {} {
      var fb := |o.calls|;
      SetAnyPropsSucceeds(ed, o1, FileTarget(fb), meta);
      var o2 := SetAnyProps(ed, o1, FileTarget(fb), meta);
      SendContentsTrace(ed, o2, fb, content);
    }
  }

  lemma {:induction false} WalkTreeSucceeds(w: Walker, o: Out, d: Node, dir: Baton, url: Path)
    requires o.err.None?
    ensures var r := WalkTree(w, o, d, dir, url);
            (r.err.None? ==> ReadableDir(d, w.recurse)) &&
            (ReadableDir(d, w.recurse) && w.ed.failing == {} ==> r.err.None?)
    decreases d, 1, 0, 0
  {
    if d.Dir? && d.listable {
      WalkEntriesSucceed(w, o, d, 0, dir, url);
    }
  }

  /** The entries of directory d from the i-th on can be read. */
  predicate ReadableFrom(d: Node, i: nat, recurse: bool)
    requires d.Dir?
  {
    forall j :: i <= j < |d.entries| ==> ReadableEntry(d.entries[j].node, recurse)
  }

  lemma {:induction false} WalkEntriesSucceed(w: Walker, o: Out, d: Node, i: nat, dir: Baton, url: Path)
    requires d.Dir? && i <= |d.entries|
    ensures var r := WalkEntries(w, o, d, i, dir, url);
            (r.err.None? ==> o.err.None? && ReadableFrom(d, i, w.recurse)) &&
            (o.err.None? && ReadableFrom(d, i, w.recurse) && w.ed.failing == {} ==> r.err.None?)
    decreases d, 0, |d.entries| - i + 1, 0
  {
    if i < |d.entries| && o.err.None? {
      var o1 := HandleEntry(w, o, d, i, dir, url);
      HandleEntrySucceeds(w, o, d, i, dir, url);
      WalkEntriesSucceed(w, o1, d, i + 1, dir, url);
      assert WalkEntries(w, o, d, i, dir, url) == WalkEntries(w, o1, d, i + 1, dir, url);
    }
  }

  lemma {:induction false} HandleEntrySucceeds(w: Walker, o: Out, d: Node, i: nat, dir: Baton, url: Path)
    requires d.Dir? && i < |d.entries| && o.err.None?
    ensures var r := HandleEntry(w, o, d, i, dir, url);
            (r.err.None? ==> ReadableEntry(d.entries[i].node, w.recurse)) &&
            (ReadableEntry(d.entries[i].node, w.recurse) && w.ed.failing == {} ==> r.err.None?)
    decreases d, 0, |d.entries| - i, 1
  {
    var e := d.entries[i];
    match e.node
    case Unreadable(_) =>
    case Other(_) =>
    case Dir(_, _, _) =>
      if w.recurse {
        AddSubdirSucceeds(w, o, d, i, dir, url);
      }
    case File(meta, content) =>
      AddFileEntrySucceeds(w.ed, o, e.name, meta, content, dir, url);
  }

  lemma {:induction false} AddSubdirSucceeds(w: Walker, o: Out, d: Node, i: nat, dir: Baton, url: Path)
    requires d.Dir? && i < |d.entries| && d.entries[i].node.Dir? && o.err.None?
    ensures var r := AddSubdir(w, o, d, i, dir, url);
            var n := d.entries[i].node;
            (r.err.None? ==> MetaReadable(n.meta) && ReadableDir(n, w.recurse)) &&
            (MetaReadable(n.meta) && ReadableDir(n, w.recurse) && w.ed.failing == {} ==> r.err.None?)
    decreases d, 0, |d.entries| - i, 0
  {
    var e := d.entries[i];
    var o1 := Invoke(w.ed, o, AddDirectory(e.name, dir, None, InvalidRevnum));
    if o1.err.None? {
      SetAnyPropsSucceeds(w.ed, o1, DirTarget(|o.calls|), e.node.meta);
      var o2 := SetAnyProps(w.ed, o1, DirTarget(|o.calls|), e.node.meta);
      if o2.err.None? {
        WalkTreeSucceeds(w, o2, e.node, |o.calls|, url + [e.name]);
        assert AddSubdir(w, o, d, i, dir, url) == WalkTree(w, o2, e.node, |o.calls|, url + [e.name]);
      }
    }
  }

  /** A tree is checked out without error exactly when the revision root
      opens and every node the walk queries can be read, provided the
      editor accepts every call; and a successful checkout always means
      the tree was readable, whatever the editor does. */
  lemma CheckoutSucceeds(ed: Editor, tree: Option<Node>, revnum: int, recurse: bool, url: Path)
    ensures var r := Checkout(ed, tree, revnum, recurse, url);
            var readable := tree.Some? && MetaReadable(tree.value.meta) && ReadableDir(tree.value, recurse);
            (r.err.None? ==> readable) &&
            (readable && ed.failing == {} ==> r.err.None?)
  {
    if tree.Some? {
      var o := OpenEdit(ed, revnum);
      if o.err.None? {
        var root := tree.value;
        SetAnyPropsSucceeds(ed, o, DirTarget(1), root.meta);
        var o1 := SetAnyProps(ed, o, DirTarget(1), root.meta);
        if o1.err.None? {
          WalkTreeSucceeds(Walker(ed, recurse), o1, root, 1, url);
        }
      }
    }
  }
}
