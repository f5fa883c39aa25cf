/** What the update-report parser guarantees. The grammar check keeps the
    open elements a chain the grammar admits; from that chain follow the
    depth of the directory stack, whether a file is open, and that every
    editor call the handlers make is one the editor contract allows at that
    point. So a parse never breaks the contract, a report that parses to the
    end drives a complete edit in which every opened node is closed, and the
    handlers' defensive "no open node" branch is never taken. */
module ReportProofs {
  import opened SvnTypes
  import opened DeltaEditor
  import opened DavProps
  import opened FileFetch
  import opened ReportGrammar
  import opened ReportParser

  // ---------------------------------------------------------------------
  // The element chain
  // ---------------------------------------------------------------------

  /** Each open element is one the grammar admits inside the one before it;
      the first is admitted by the document root. */
  predicate ValidChain(elems: seq<Elem>)
    decreases |elems|
  {
    elems == [] || (ValidChain(DropLast(elems)) && Validate(Parent(DropLast(elems)), Last(elems)) == Valid)
  }

  function DirCount(elems: seq<Elem>): nat
    decreases |elems|
  {
    if elems == [] then 0 else DirCount(DropLast(elems)) + (if IsDir(Last(elems)) then 1 else 0)
  }

  function FileCount(elems: seq<Elem>): nat
    decreases |elems|
  {
    if elems == [] then 0 else FileCount(DropLast(elems)) + (if IsFile(Last(elems)) then 1 else 0)
  }

  /** The element a new start tag is checked against. */
  function Parent(elems: seq<Elem>): Elem {
    if elems == [] then Root else Last(elems)
  }

  lemma ChainPush(elems: seq<Elem>, c: Elem)
    requires ValidChain(elems) && Validate(Parent(elems), c) == Valid
    ensures ValidChain(elems + [c])
    ensures DropLast(elems + [c]) == elems && Last(elems + [c]) == c
    ensures DirCount(elems + [c]) == DirCount(elems) + (if IsDir(c) then 1 else 0)
    ensures FileCount(elems + [c]) == FileCount(elems) + (if IsFile(c) then 1 else 0)
  {
    assert DropLast(elems + [c]) == elems;
  }

  lemma ChainPop(elems: seq<Elem>)
    requires ValidChain(elems) && elems != []
    ensures ValidChain(DropLast(elems))
    ensures Validate(Parent(DropLast(elems)), Last(elems)) == Valid
    ensures Last(elems) != Root && Last(elems) != Unknown
  {
    UnknownNeverValid(Parent(DropLast(elems)));
  }

  /** A chain ending in the report or a directory element holds no file
      element; one ending in the report is the report alone. */
  lemma {:induction false} StructuralChain(elems: seq<Elem>)
    requires ValidChain(elems) && elems != [] && Structural(Last(elems))
    ensures FileCount(elems) == 0
    ensures Last(elems) == UpdateReport ==> elems == [UpdateReport]
    decreases |elems|
  {
    ChainPop(elems);
    StructuralParents(Parent(DropLast(elems)), Last(elems));
    if |elems| > 1 {
      ChainPop(DropLast(elems));
      StructuralChain(DropLast(elems));
    } else {
      assert elems == [Last(elems)];
    }
  }

  /** Every element other than the report and the target revision lies
      inside a directory element. */
  lemma {:induction false} NestedChain(elems: seq<Elem>)
    requires ValidChain(elems) && elems != []
    requires Last(elems) != UpdateReport && Last(elems) != TargetRevision
    ensures DirCount(elems) > 0
    decreases |elems|
  {
    if !IsDir(Last(elems)) {
      ChainPop(elems);
      NestedParents(Parent(DropLast(elems)), Last(elems));
      if |elems| > 1 {
        NestedChain(DropLast(elems));
      }
    }
  }
  // ---------------------------------------------------------------------
  // The invariant
  // ---------------------------------------------------------------------

  function Batons(dirs: seq<DirItem>): (r: seq<Baton>)
    ensures |r| == |dirs| && forall k :: 0 <= k < |dirs| ==> r[k] == dirs[k].baton
  {
    seq(|dirs|, k requires 0 <= k < |dirs| => dirs[k].baton)
  }

  /** How far the edit has got before its nodes: whether the target
      revision was set, and whether the root was opened. */
  datatype Phase = Phase(targeted: bool, rooted: bool)

  /** What the editor contract should have recorded for a parse state in a
      given phase. */
  function ShadowOf(st: Report, ph: Phase): Shadow {
    Shadow(Batons(st.dirs), st.fileBaton, false, false, ph.targeted, ph.rooted)
  }

  /** Every directory's path is its parent's path and one more name, the
      root's being "."; while a file is open, the innermost directory's path
      carries the file's name as well. */
  predicate PathsOk(st: Report) {
    (forall k :: 0 <= k < |st.dirs| ==>
       |st.dirs[k].path| == k + 1 + (if k == |st.dirs| - 1 && st.fileBaton.Some? then 1 else 0)) &&
    (|st.dirs| > 0 ==> st.dirs[0].path[..1] == RootPath) &&
    (forall k :: 0 < k < |st.dirs| ==> st.dirs[k].path[..k] == st.dirs[k - 1].path)
  }

  ghost predicate Inv(st: Report, ph: Phase) {
    st.out.err.None? &&
    ValidChain(st.elems) &&
    (st.closed ==> st.elems == []) &&
    DirCount(st.elems) == |st.dirs| &&
    FileCount(st.elems) <= 1 &&
    (st.fileBaton.Some? <==> FileCount(st.elems) == 1) &&
    Replay(st.out.calls) == Some(ShadowOf(st, ph)) &&
    PathsOk(st)
  }

  lemma InitInv()
    ensures Inv(Init, Phase(false, false))
  {
  }

  /** Fetching a node's properties keeps the contract's state. */
  lemma FetchPropsKeepContract(env: Env, o: Out, url: string, t: Target, s: Shadow)
    requires Replay(o.calls) == Some(s) && TargetOk(s, t) && !s.ended
    ensures Replay(FetchAndAddProps(env, o, url, t).calls) == Some(s)
  {
    Append1(o.calls, Propfind(url), s);
    if url in env.props {
      PropCallsKeepContract(o.calls + [Propfind(url)], t, Enumerate(env.props[url]), s);
    }
  }

  lemma AddNodePropsKeepContract(env: Env, st: Report, ph: Phase)
    requires Inv(st, ph)
    requires st.fileBaton.Some? || st.dirs != []
    ensures Replay(AddNodeProps(env, st).calls) == Some(ShadowOf(st, ph))
    ensures AddNodeProps(env, st).err != Some(NoOpenNode)
  {
    var s := ShadowOf(st, ph);
    if env.fetchContent {
      if st.fileBaton.Some? {
        if st.fetchProps {
          FetchPropsKeepContract(env, st.out, st.href, FileTarget(st.fileBaton.value), s);
        }
      } else if Last(st.dirs).fetchProps && Last(st.dirs).vsnUrl.Some? {
        FetchPropsKeepContract(env, st.out, Last(st.dirs).vsnUrl.value, DirTarget(Last(st.dirs).baton), s);
      }
    }
  }

  lemma CurrentTargetOk(st: Report, ph: Phase)
    requires Inv(st, ph) && CurrentTarget(st).Some?
    ensures TargetOk(ShadowOf(st, ph), CurrentTarget(st).value)
  {
  }

  // ---------------------------------------------------------------------
  // How each kind of step keeps the invariant
  // ---------------------------------------------------------------------

  /** What every step guarantees: the contract accepts the trace, the
      defensive branch is not taken, and without an error the invariant
      holds again. */
  ghost predicate Kept(ph: Phase, st': Report) {
    Replay(st'.out.calls).Some? && st'.out.err != Some(NoOpenNode) && (st'.out.err.None? ==> Inv(st', ph))
  }

  /** The chain part of the invariant after a step. */
  predicate ChainAfter(st': Report, dirs: nat, files: nat) {
    ValidChain(st'.elems) && (st'.closed ==> st'.elems == []) &&
    DirCount(st'.elems) == dirs && FileCount(st'.elems) == files
  }

  /** A step that leaves the node stacks alone. */
  lemma SameNodesKeepInv(st: Report, ph: Phase, st': Report)
    requires Inv(st, ph) && st'.out.err.None?
    requires ChainAfter(st', DirCount(st.elems), FileCount(st.elems))
    requires st'.dirs == st.dirs && st'.fileBaton == st.fileBaton
    requires Replay(st'.out.calls) == Some(ShadowOf(st, ph))
    ensures Inv(st', ph)
  {
    SameNodesNewPhase(st, ph, st', ph);
  }

  /** A step that leaves the node stacks alone and may move the phase on. */
  lemma SameNodesNewPhase(st: Report, ph: Phase, st': Report, ph': Phase)
    requires Inv(st, ph) && st'.out.err.None?
    requires ChainAfter(st', DirCount(st.elems), FileCount(st.elems))
    requires st'.dirs == st.dirs && st'.fileBaton == st.fileBaton
    requires Replay(st'.out.calls) == Some(ShadowOf(st, ph'))
    ensures Inv(st', ph')
  {
    assert ShadowOf(st', ph') == ShadowOf(st, ph');
  }

  /** A step that leaves the node stacks alone and makes one editor call. */
  lemma InvokeKeepsNodes(ed: Editor, st: Report, ph: Phase, st': Report, c: Effect)
    requires Inv(st, ph)
    requires ChainAfter(st', DirCount(st.elems), FileCount(st.elems))
    requires st'.dirs == st.dirs && st'.fileBaton == st.fileBaton
    requires st'.out == Invoke(ed, st.out, c)
    requires Replay(st.out.calls + [c]) == Some(ShadowOf(st, ph))
    ensures Kept(ph, st')
  {
    if st'.out.err.None? {
      SameNodesKeepInv(st, ph, st');
    }
  }

  /** A step that changes only the flags of the innermost directory. */
  lemma TopFlagsKeepInv(st: Report, ph: Phase, st': Report)
    requires Inv(st, ph) && st'.out.err.None? && st.dirs != []
    requires ChainAfter(st', DirCount(st.elems), FileCount(st.elems))
    requires |st'.dirs| == |st.dirs| && DropLast(st'.dirs) == DropLast(st.dirs)
    requires Last(st'.dirs).baton == Last(st.dirs).baton && Last(st'.dirs).path == Last(st.dirs).path
    requires st'.fileBaton == st.fileBaton
    requires Replay(st'.out.calls) == Some(ShadowOf(st, ph))
    ensures Inv(st', ph)
  {
    forall k | 0 <= k < |st.dirs|
      ensures st'.dirs[k].baton == st.dirs[k].baton && st'.dirs[k].path == st.dirs[k].path
    {
      if k < |st.dirs| - 1 {
        assert st'.dirs[k] == DropLast(st'.dirs)[k];
      }
    }
    assert Batons(st'.dirs) == Batons(st.dirs);
  }

  /** A step that opens a directory: the root, with path ".", or a
      subdirectory whose path extends the innermost directory's by one
      name. */
  lemma PushKeepsInv(st: Report, ph: Phase, st': Report, d: DirItem, ph': Phase)
    requires Inv(st, ph) && st'.out.err.None? && st.fileBaton.None? && st'.fileBaton.None?
    requires ChainAfter(st', |st.dirs| + 1, 0)
    requires st'.dirs == st.dirs + [d]
    requires st.dirs == [] ==> d.path == RootPath
    requires st.dirs != [] ==> |d.path| == |Last(st.dirs).path| + 1 && d.path[..|st.dirs|] == Last(st.dirs).path
    requires Replay(st'.out.calls) == Some(ShadowOf(st, ph').(dirs := Batons(st.dirs) + [d.baton]))
    ensures Inv(st', ph')
  {
    assert Batons(st'.dirs) == Batons(st.dirs) + [d.baton];
    forall k | 0 <= k < |st'.dirs|
      ensures |st'.dirs[k].path| == k + 1
    {
      if k < |st.dirs| {
        assert st'.dirs[k] == st.dirs[k];
      }
    }
    forall k | 0 < k < |st'.dirs|
      ensures st'.dirs[k].path[..k] == st'.dirs[k - 1].path
    {
      if k < |st.dirs| {
        assert st'.dirs[k] == st.dirs[k];
      }
    }
    if st.dirs == [] {
      assert st'.dirs[0].path[..1] == RootPath;
    } else {
      assert st'.dirs[0] == st.dirs[0];
    }
  }

  /** A step that closes the innermost directory. */
  lemma PopKeepsInv(st: Report, ph: Phase, st': Report)
    requires Inv(st, ph) && st'.out.err.None? && st.fileBaton.None? && st'.fileBaton.None? && st.dirs != []
    requires ChainAfter(st', |st.dirs| - 1, 0)
    requires st'.dirs == DropLast(st.dirs)
    requires Replay(st'.out.calls) == Some(ShadowOf(st, ph).(dirs := DropLast(Batons(st.dirs))))
    ensures Inv(st', ph)
  {
    assert Batons(st'.dirs) == DropLast(Batons(st.dirs));
    forall k | 0 <= k < |st'.dirs|
      ensures st'.dirs[k] == st.dirs[k]
    {
    }
  }

  /** A step that opens a file in the innermost directory, whose path then
      carries the file's name. */
  lemma FileOpenKeepsInv(st: Report, ph: Phase, st': Report, b: Baton, n: string)
    requires Inv(st, ph) && st'.out.err.None? && st.fileBaton.None? && st'.fileBaton == Some(b) && st.dirs != []
    requires ChainAfter(st', |st.dirs|, 1)
    requires st'.dirs == SetTop(st.dirs, Last(st.dirs).(path := Last(st.dirs).path + [n]))
    requires Replay(st'.out.calls) == Some(ShadowOf(st, ph).(file := Some(b)))
    ensures Inv(st', ph)
  {
    var m := |st.dirs| - 1;
    forall k | 0 <= k < |st.dirs|
      ensures st'.dirs[k].baton == st.dirs[k].baton
      ensures k < m ==> st'.dirs[k] == st.dirs[k]
    {
      if k < m {
        assert st'.dirs[k] == DropLast(st.dirs)[k];
      }
    }
    assert Batons(st'.dirs) == Batons(st.dirs);
    forall k | 0 < k < |st'.dirs|
      ensures st'.dirs[k].path[..k] == st'.dirs[k - 1].path
    {
      if k == m {
        assert st'.dirs[k].path[..k] == st.dirs[k].path[..k];
      }
    }
    if m == 0 {
      assert st'.dirs[0].path[..1] == st.dirs[0].path[..1];
    }
  }

  /** A step that closes the open file, whose name leaves the innermost
      directory's path. */
  lemma FileCloseKeepsInv(st: Report, ph: Phase, st': Report)
    requires Inv(st, ph) && st'.out.err.None? && st.fileBaton.Some? && st'.fileBaton.None? && st.dirs != []
    requires ChainAfter(st', |st.dirs|, 0)
    requires st'.dirs == SetTop(st.dirs, Last(st.dirs).(path := RemoveComponent(Last(st.dirs).path)))
    requires Replay(st'.out.calls) == Some(ShadowOf(st, ph).(file := None))
    ensures Inv(st', ph)
  {
    var m := |st.dirs| - 1;
    assert |st.dirs[m].path| == m + 2;
    forall k | 0 <= k < |st.dirs|
      ensures st'.dirs[k].baton == st.dirs[k].baton
      ensures k < m ==> st'.dirs[k] == st.dirs[k]
    {
      if k < m {
        assert st'.dirs[k] == DropLast(st.dirs)[k];
      }
    }
    assert Batons(st'.dirs) == Batons(st.dirs);
    forall k | 0 < k < |st'.dirs|
      ensures st'.dirs[k].path[..k] == st'.dirs[k - 1].path
    {
      if k == m {
        assert st'.dirs[k].path[..k] == st.dirs[k].path[..k];
      }
    }
    if m == 0 {
      assert st'.dirs[0].path[..1] == st.dirs[0].path[..1];
    }
  }

  // ---------------------------------------------------------------------
  // Start tags
  // ---------------------------------------------------------------------

  /** The state after a start tag the grammar admits. */
  ghost function AfterStart(env: Env, st: Report, c: Elem, atts: seq<(string, string)>): Report
    requires st.out.err.None?
  {
    StartElement(env, st, c, atts).(elems := st.elems + [c])
  }

  /** The state after target-revision with its rev attribute. */
  lemma AfterTargetRevision(env: Env, st: Report, atts: seq<(string, string)>)
    requires st.out.err.None? && GetAttr(atts, "rev").Some?
    ensures AfterStart(env, st, TargetRevision, atts) ==
            st.(out := Invoke(env.ed, st.out, SetTargetRevision(StrToRev(GetAttr(atts, "rev").value))),
                elems := st.elems + [TargetRevision])
  {
  }

  /** The state after an element whose start tag only enters it. */
  lemma AfterQuietStart(env: Env, st: Report, c: Elem, atts: seq<(string, string)>)
    requires st.out.err.None?
    requires c == Prop || c == CheckedIn || c == Href || c == VersionName || c == CreationDate || c == CreatorDisplayname
    ensures AfterStart(env, st, c, atts) == st.(elems := st.elems + [c])
  {
  }

  /** The state after fetch-props on the current node. */
  lemma AfterFetchProps(env: Env, st: Report, atts: seq<(string, string)>)
    requires st.out.err.None? && CurrentTarget(st).Some?
    ensures AfterStart(env, st, FetchProps, atts) ==
            (if !env.fetchContent
             then st.(out := InvokeIgnoringError(st.out, SetProp(CurrentTarget(st).value, Bogosity, None)))
             else if st.fileBaton.Some? then st.(fetchProps := true)
             else st.(dirs := SetTop(st.dirs, Last(st.dirs).(fetchProps := true)))).(elems := st.elems + [FetchProps])
  {
  }

  /** The state after open-file or add-file with its attributes, under an
      open directory. */
  lemma AfterFileStart(env: Env, st: Report, c: Elem, atts: seq<(string, string)>, n: string, call: Effect, fetch: bool)
    requires st.out.err.None? && st.dirs != []
    requires c == Elem.OpenFile || c == Elem.AddFile
    requires c == Elem.OpenFile ==>
               GetAttr(atts, "rev").Some? && GetAttr(atts, "name") == Some(n) && !fetch &&
               call == Effect.OpenFile(n, Last(st.dirs).baton, StrToRev(GetAttr(atts, "rev").value))
    requires c == Elem.AddFile ==>
               GetAttr(atts, "name") == Some(n) && ReadCopyfrom(atts).Some? && fetch &&
               call == Effect.AddFile(n, Last(st.dirs).baton, ReadCopyfrom(atts).value.0, ReadCopyfrom(atts).value.1)
    ensures var o := Invoke(env.ed, st.out, call);
            var parent := Last(st.dirs);
            AfterStart(env, st, c, atts) ==
            Commit(st, o, st.(fileBaton := Some(|st.out.calls|), fetchProps := fetch,
                              dirs := SetTop(st.dirs, parent.(path := parent.path + [n])))).(elems := st.elems + [c])
  {
  }

  /** The state after add-directory with its attributes, under an open
      directory. */
  lemma AfterAddDirectory(env: Env, st: Report, atts: seq<(string, string)>)
    requires st.out.err.None? && st.dirs != [] && GetAttr(atts, "name").Some? && ReadCopyfrom(atts).Some?
    ensures var n := GetAttr(atts, "name").value;
            var parent := Last(st.dirs);
            var o := Invoke(env.ed, st.out, Effect.AddDirectory(n, parent.baton, ReadCopyfrom(atts).value.0,
                                                                ReadCopyfrom(atts).value.1));
            AfterStart(env, st, Elem.AddDirectory, atts) ==
            Commit(st, o, st.(dirs := st.dirs + [DirItem(|st.out.calls|, true, None, parent.path + [n])]))
              .(elems := st.elems + [Elem.AddDirectory])
  {
  }

  /** target-revision sets the target revision, once and before the root. */
  lemma StartTargetRevisionKept(env: Env, st: Report, ph: Phase, atts: seq<(string, string)>)
    requires Inv(st, ph) && Validate(Parent(st.elems), TargetRevision) == Valid
    requires !ph.targeted && !ph.rooted
    ensures Kept(ph.(targeted := true), AfterStart(env, st, TargetRevision, atts))
  {
    ChainPush(st.elems, TargetRevision);
    StructuralParents(Parent(st.elems), Elem.OpenDirectory);
    ReportChildren(TargetRevision);
    StructuralChain(st.elems);
    if GetAttr(atts, "rev").Some? {
      var ph' := ph.(targeted := true);
      var c := SetTargetRevision(StrToRev(GetAttr(atts, "rev").value));
      Append1(st.out.calls, c, ShadowOf(st, ph'));
      AfterTargetRevision(env, st, atts);
      var st' := AfterStart(env, st, TargetRevision, atts);
      if st'.out.err.None? {
        SameNodesNewPhase(st, ph, st', ph');
      }
    }
  }

  lemma StartOpenDirectoryKept(env: Env, st: Report, ph: Phase, atts: seq<(string, string)>)
    requires Inv(st, ph) && Validate(Parent(st.elems), Elem.OpenDirectory) == Valid
    requires st.dirs == [] ==> !ph.rooted
    ensures Kept(if st.dirs == [] then ph.(rooted := true) else ph, AfterStart(env, st, Elem.OpenDirectory, atts))
  {
    ChainPush(st.elems, Elem.OpenDirectory);
    StructuralParents(Parent(st.elems), Elem.OpenDirectory);
    StructuralChain(st.elems);
    if GetAttr(atts, "rev").Some? {
      if st.dirs == [] {
        OpenRootKept(env, st, ph, StrToRev(GetAttr(atts, "rev").value));
      } else if GetAttr(atts, "name").Some? {
        OpenSubdirectoryKept(env, st, ph, StrToRev(GetAttr(atts, "rev").value), GetAttr(atts, "name").value);
      }
    }
  }

  /** An open-directory with no directory open opens the root. */
  lemma OpenRootKept(env: Env, st: Report, ph: Phase, base: int)
    requires Inv(st, ph) && st.dirs == [] && st.fileBaton.None? && !ph.rooted
    requires ChainAfter(st.(elems := st.elems + [Elem.OpenDirectory]), 1, 0)
    ensures var b := |st.out.calls|;
            var o := Invoke(env.ed, st.out, OpenRoot(base));
            Kept(ph.(rooted := true), Commit(st, o, st.(dirs := [DirItem(b, false, None, RootPath)])).(elems := st.elems + [Elem.OpenDirectory]))
  {
    var b := |st.out.calls|;
    var d := DirItem(b, false, None, RootPath);
    var s := ShadowOf(st, ph.(rooted := true));
    assert Batons(st.dirs) + [b] == [b];
    Append1(st.out.calls, OpenRoot(base), s.(dirs := Batons(st.dirs) + [b]));
    var o := Invoke(env.ed, st.out, OpenRoot(base));
    var st' := Commit(st, o, st.(dirs := [d])).(elems := st.elems + [Elem.OpenDirectory]);
    if o.err.None? {
      assert st' == st.(out := o, dirs := st.dirs + [d], elems := st.elems + [Elem.OpenDirectory]);
      PushKeepsInv(st, ph, st', d, ph.(rooted := true));
    }
  }

  /** A later open-directory opens a subdirectory of the innermost one. */
  lemma OpenSubdirectoryKept(env: Env, st: Report, ph: Phase, base: int, n: string)
    requires Inv(st, ph) && st.dirs != [] && st.fileBaton.None?
    requires ChainAfter(st.(elems := st.elems + [Elem.OpenDirectory]), |st.dirs| + 1, 0)
    ensures var b := |st.out.calls|;
            var parent := Last(st.dirs);
            var o := Invoke(env.ed, st.out, Effect.OpenDirectory(n, parent.baton, base));
            Kept(ph, Commit(st, o, st.(dirs := st.dirs + [DirItem(b, false, None, parent.path + [n])]))
                 .(elems := st.elems + [Elem.OpenDirectory]))
  {
    var b := |st.out.calls|;
    var parent := Last(st.dirs);
    var d := DirItem(b, false, None, parent.path + [n]);
    var c := Effect.OpenDirectory(n, parent.baton, base);
    Append1(st.out.calls, c, ShadowOf(st, ph).(dirs := Batons(st.dirs) + [b]));
    var o := Invoke(env.ed, st.out, c);
    var st' := Commit(st, o, st.(dirs := st.dirs + [d])).(elems := st.elems + [Elem.OpenDirectory]);
    if o.err.None? {
      assert st' == st.(out := o, dirs := st.dirs + [d], elems := st.elems + [Elem.OpenDirectory]);
      PushKeepsInv(st, ph, st', d, ph);
    }
  }

  lemma StartAddDirectoryKept(env: Env, st: Report, ph: Phase, atts: seq<(string, string)>)
    requires Inv(st, ph) && Validate(Parent(st.elems), Elem.AddDirectory) == Valid
    ensures Kept(ph, AfterStart(env, st, Elem.AddDirectory, atts))
  {
    ChainPush(st.elems, Elem.AddDirectory);
    StructuralParents(Parent(st.elems), Elem.AddDirectory);
    StructuralChain(st.elems);
    NestedChain(st.elems);
    if GetAttr(atts, "name").Some? && ReadCopyfrom(atts).Some? {
      AfterAddDirectory(env, st, atts);
      var st' := AfterStart(env, st, Elem.AddDirectory, atts);
      var n := GetAttr(atts, "name").value;
      var (cpath, crev) := ReadCopyfrom(atts).value;
      var parent := Last(st.dirs);
      var b := |st.out.calls|;
      var d := DirItem(b, true, None, parent.path + [n]);
      var c := Effect.AddDirectory(n, parent.baton, cpath, crev);
      Append1(st.out.calls, c, ShadowOf(st, ph).(dirs := Batons(st.dirs) + [b]));
      var o := Invoke(env.ed, st.out, c);
      if o.err.None? {
        assert st' == st.(out := o, dirs := st.dirs + [d], elems := st.elems + [Elem.AddDirectory]);
        PushKeepsInv(st, ph, st', d, ph);
      } else {
        assert st'.out == o;
      }
    }
  }

  lemma StartOpenFileKept(env: Env, st: Report, ph: Phase, atts: seq<(string, string)>)
    requires Inv(st, ph) && Validate(Parent(st.elems), Elem.OpenFile) == Valid
    ensures Kept(ph, AfterStart(env, st, Elem.OpenFile, atts))
  {
    ChainPush(st.elems, Elem.OpenFile);
    FileParents(Parent(st.elems), Elem.OpenFile);
    StructuralChain(st.elems);
    NestedChain(st.elems);
    if GetAttr(atts, "rev").Some? && GetAttr(atts, "name").Some? {
      var n := GetAttr(atts, "name").value;
      var c := Effect.OpenFile(n, Last(st.dirs).baton, StrToRev(GetAttr(atts, "rev").value));
      AfterFileStart(env, st, Elem.OpenFile, atts, n, c, false);
      Append1(st.out.calls, c, ShadowOf(st, ph).(file := Some(|st.out.calls|)));
      FileCommitKept(env.ed, st, ph, Elem.OpenFile, c, n, false);
    }
  }

  lemma StartAddFileKept(env: Env, st: Report, ph: Phase, atts: seq<(string, string)>)
    requires Inv(st, ph) && Validate(Parent(st.elems), Elem.AddFile) == Valid
    ensures Kept(ph, AfterStart(env, st, Elem.AddFile, atts))
  {
    ChainPush(st.elems, Elem.AddFile);
    FileParents(Parent(st.elems), Elem.AddFile);
    StructuralChain(st.elems);
    NestedChain(st.elems);
    if GetAttr(atts, "name").Some? && ReadCopyfrom(atts).Some? {
      var n := GetAttr(atts, "name").value;
      var (cpath, crev) := ReadCopyfrom(atts).value;
      var c := Effect.AddFile(n, Last(st.dirs).baton, cpath, crev);
      AfterFileStart(env, st, Elem.AddFile, atts, n, c, true);
      Append1(st.out.calls, c, ShadowOf(st, ph).(file := Some(|st.out.calls|)));
      FileCommitKept(env.ed, st, ph, Elem.AddFile, c, n, true);
    }
  }

  /** open-file and add-file: the file is opened in the innermost directory
      once the editor accepts the call. */
  lemma FileCommitKept(ed: Editor, st: Report, ph: Phase, e: Elem, c: Effect, n: string, fetch: bool)
    requires Inv(st, ph) && st.fileBaton.None? && st.dirs != []
    requires ChainAfter(st.(elems := st.elems + [e]), |st.dirs|, 1)
    requires Replay(st.out.calls + [c]) == Some(ShadowOf(st, ph).(file := Some(|st.out.calls|)))
    ensures var parent := Last(st.dirs);
            Kept(ph, Commit(st, Invoke(ed, st.out, c),
                        st.(fileBaton := Some(|st.out.calls|), fetchProps := fetch,
                            dirs := SetTop(st.dirs, parent.(path := parent.path + [n])))).(elems := st.elems + [e]))
  {
    var b := |st.out.calls|;
    var parent := Last(st.dirs);
    var o := Invoke(ed, st.out, c);
    var st' := Commit(st, o, st.(fileBaton := Some(b), fetchProps := fetch,
                                 dirs := SetTop(st.dirs, parent.(path := parent.path + [n])))).(elems := st.elems + [e]);
    if o.err.None? {
      assert st' == st.(out := o, fileBaton := Some(b), fetchProps := fetch,
                        dirs := SetTop(st.dirs, parent.(path := parent.path + [n])),
                        elems := st.elems + [e]);
      FileOpenKeepsInv(st, ph, st', b, n);
    } else {
      assert st'.out == o;
    }
  }

  /** What holds when a leaf element (one that opens no node) starts: the
      chain grows, the counts do not, and a directory is open. */
  lemma LeafStartSetup(st: Report, ph: Phase, c: Elem)
    requires Inv(st, ph) && Validate(Parent(st.elems), c) == Valid
    requires c != UpdateReport && c != TargetRevision && !IsDir(c) && !IsFile(c)
    ensures st.elems != [] && st.dirs != []
    ensures ValidChain(st.elems + [c])
    ensures DirCount(st.elems + [c]) == DirCount(st.elems)
    ensures FileCount(st.elems + [c]) == FileCount(st.elems)
  {
    ChainPush(st.elems, c);
    NestedParents(Parent(st.elems), c);
    if st.elems == [] {
      assert false;
    }
    NestedChain(st.elems);
  }

  lemma StartRemovePropKept(env: Env, st: Report, ph: Phase, atts: seq<(string, string)>)
    requires Inv(st, ph) && Validate(Parent(st.elems), RemoveProp) == Valid
    ensures Kept(ph, AfterStart(env, st, RemoveProp, atts))
  {
    LeafStartSetup(st, ph, RemoveProp);
    if GetAttr(atts, "name").Some? {
      CurrentTargetOk(st, ph);
      var c := SetProp(CurrentTarget(st).value, GetAttr(atts, "name").value, None);
      Append1(st.out.calls, c, ShadowOf(st, ph));
      var st' := AfterStart(env, st, RemoveProp, atts);
      assert st' == st.(out := InvokeIgnoringError(st.out, c), elems := st.elems + [RemoveProp]);
      SameNodesKeepInv(st, ph, st');
    }
  }

  lemma StartFetchPropsKept(env: Env, st: Report, ph: Phase, atts: seq<(string, string)>)
    requires Inv(st, ph) && Validate(Parent(st.elems), FetchProps) == Valid
    ensures Kept(ph, AfterStart(env, st, FetchProps, atts))
  {
    LeafStartSetup(st, ph, FetchProps);
    CurrentTargetOk(st, ph);
    AfterFetchProps(env, st, atts);
    var st' := AfterStart(env, st, FetchProps, atts);
    if !env.fetchContent {
      var c := SetProp(CurrentTarget(st).value, Bogosity, None);
      Append1(st.out.calls, c, ShadowOf(st, ph));
      assert st' == st.(out := InvokeIgnoringError(st.out, c), elems := st.elems + [FetchProps]);
      SameNodesKeepInv(st, ph, st');
    } else if st.fileBaton.None? {
      var d := Last(st.dirs).(fetchProps := true);
      assert st' == st.(dirs := SetTop(st.dirs, d), elems := st.elems + [FetchProps]);
      TopFlagsKeepInv(st, ph, st');
    } else {
      assert st' == st.(fetchProps := true, elems := st.elems + [FetchProps]);
      SameNodesKeepInv(st, ph, st');
    }
  }

  lemma StartFetchFileKept(env: Env, st: Report, ph: Phase, atts: seq<(string, string)>)
    requires Inv(st, ph) && Validate(Parent(st.elems), FetchFile) == Valid
    ensures Kept(ph, AfterStart(env, st, FetchFile, atts))
  {
    LeafStartSetup(st, ph, FetchFile);
    assert Last(st.elems) == Elem.OpenFile;
    assert FileCount(st.elems) >= 1;
    var o := SimpleFetchFile(env.ed, st.out, st.href, Some(Last(st.dirs).path), env.fetchContent,
                             st.fileBaton.value, Response(env, st.href));
    FetchKeepsContract(env.ed, st.out, st.href, Some(Last(st.dirs).path), env.fetchContent,
                       st.fileBaton.value, Response(env, st.href), ShadowOf(st, ph));
    FetchErrorKinds(env.ed, st.out, st.href, Some(Last(st.dirs).path), env.fetchContent,
                    st.fileBaton.value, Response(env, st.href));
    var st' := AfterStart(env, st, FetchFile, atts);
    assert st' == st.(out := o, elems := st.elems + [FetchFile]);
    if o.err.None? {
      SameNodesKeepInv(st, ph, st');
    }
  }

  lemma StartDeleteEntryKept(env: Env, st: Report, ph: Phase, atts: seq<(string, string)>)
    requires Inv(st, ph) && Validate(Parent(st.elems), Elem.DeleteEntry) == Valid
    ensures Kept(ph, AfterStart(env, st, Elem.DeleteEntry, atts))
  {
    LeafStartSetup(st, ph, Elem.DeleteEntry);
    assert Last(st.elems) == Elem.OpenDirectory;
    StructuralChain(st.elems);
    if GetAttr(atts, "name").Some? {
      var c := Effect.DeleteEntry(GetAttr(atts, "name").value, InvalidRevnum, Last(st.dirs).baton);
      Append1(st.out.calls, c, ShadowOf(st, ph));
      var st' := AfterStart(env, st, Elem.DeleteEntry, atts);
      assert st' == st.(out := Invoke(env.ed, st.out, c), elems := st.elems + [Elem.DeleteEntry]);
      if st'.out.err.None? {
        SameNodesKeepInv(st, ph, st');
      }
    }
  }

  /** Elements whose start tag does nothing but enter the element. */
  lemma StartQuietKept(env: Env, st: Report, ph: Phase, c: Elem, atts: seq<(string, string)>)
    requires Inv(st, ph) && Validate(Parent(st.elems), c) == Valid
    requires c == Prop || c == CheckedIn || c == Href || c == VersionName || c == CreationDate || c == CreatorDisplayname
    ensures Kept(ph, AfterStart(env, st, c, atts))
  {
    LeafStartSetup(st, ph, c);
    AfterQuietStart(env, st, c, atts);
    SameNodesKeepInv(st, ph, AfterStart(env, st, c, atts));
  }

  // ---------------------------------------------------------------------
  // End tags
  // ---------------------------------------------------------------------

  ghost function AfterEnd(env: Env, st: Report, cdata: string): Report
    requires st.out.err.None? && st.elems != []
  {
    EndElement(env, st, Last(st.elems), cdata).(elems := DropLast(st.elems), closed := |st.elems| == 1)
  }

  lemma EndDirectoryKept(env: Env, st: Report, ph: Phase, cdata: string)
    requires Inv(st, ph) && st.elems != [] && IsDir(Last(st.elems))
    ensures Kept(ph, AfterEnd(env, st, cdata))
  {
    ChainPop(st.elems);
    StructuralChain(st.elems);
    AddNodePropsKeepContract(env, st, ph);
    var o := AddNodeProps(env, st);
    if o.err.None? {
      DirCloseCommitKept(env.ed, st, ph, o, DropLast(st.elems), |st.elems| == 1);
    }
  }

  /** close_directory on the innermost directory, which is popped once the
      editor accepts the call. */
  lemma DirCloseCommitKept(ed: Editor, st: Report, ph: Phase, o: Out, elems': seq<Elem>, closed': bool)
    requires Inv(st, ph) && st.fileBaton.None? && st.dirs != [] && o.err.None?
    requires ChainAfter(st.(elems := elems', closed := closed'), |st.dirs| - 1, 0)
    requires Replay(o.calls) == Some(ShadowOf(st, ph))
    ensures Kept(ph, Commit(st, Invoke(ed, o, CloseDirectory(Last(st.dirs).baton)), st.(dirs := DropLast(st.dirs)))
                 .(elems := elems', closed := closed'))
  {
    var c := CloseDirectory(Last(st.dirs).baton);
    Append1(o.calls, c, ShadowOf(st, ph).(dirs := DropLast(Batons(st.dirs))));
    var o2 := Invoke(ed, o, c);
    var st' := Commit(st, o2, st.(dirs := DropLast(st.dirs))).(elems := elems', closed := closed');
    if o2.err.None? {
      assert st' == st.(out := o2, dirs := DropLast(st.dirs), elems := elems', closed := closed');
      PopKeepsInv(st, ph, st');
    } else {
      assert st'.out == o2;
    }
  }

  /** The end of a file: with the chain already popped past the file
      element, closing the file restores the invariant. */
  lemma EndFileKept(env: Env, st: Report, ph: Phase, elems': seq<Elem>, closed': bool)
    requires Inv(st, ph) && st.fileBaton.Some? && st.dirs != []
    requires ChainAfter(st.(elems := elems', closed := closed'), |st.dirs|, 0)
    ensures Kept(ph, EndFile(env, st).(elems := elems', closed := closed'))
  {
    AddNodePropsKeepContract(env, st, ph);
    var o := AddNodeProps(env, st);
    var r := EndFile(env, st).(elems := elems', closed := closed');
    if o.err.None? {
      var c := CloseFile(st.fileBaton.value);
      Append1(o.calls, c, ShadowOf(st, ph).(file := None));
      var o2 := Invoke(env.ed, o, c);
      var top := Last(st.dirs);
      if o2.err.None? {
        assert r == st.(out := o2, fileBaton := None, dirs := SetTop(st.dirs, top.(path := RemoveComponent(top.path))),
                        elems := elems', closed := closed');
        FileCloseKeepsInv(st, ph, r);
      } else {
        assert r.out == o2;
      }
    } else {
      assert r.out == o;
    }
  }

  /** What holds when a file element ends: the chain shrinks by the file
      element, which was the one open file, inside an open directory. */
  lemma FileEndSetup(st: Report, ph: Phase)
    requires Inv(st, ph) && st.elems != [] && IsFile(Last(st.elems))
    ensures st.fileBaton.Some? && st.dirs != []
    ensures ChainAfter(st.(elems := DropLast(st.elems), closed := |st.elems| == 1), |st.dirs|, 0)
  {
    ChainPop(st.elems);
    NestedChain(st.elems);
  }

  lemma EndOpenFileKept(env: Env, st: Report, ph: Phase, cdata: string)
    requires Inv(st, ph) && st.elems != [] && Last(st.elems) == Elem.OpenFile
    ensures Kept(ph, AfterEnd(env, st, cdata))
  {
    FileEndSetup(st, ph);
    EndFileKept(env, st, ph, DropLast(st.elems), |st.elems| == 1);
    assert AfterEnd(env, st, cdata) == EndFile(env, st).(elems := DropLast(st.elems), closed := |st.elems| == 1);
  }

  lemma EndAddFileKept(env: Env, st: Report, ph: Phase, cdata: string)
    requires Inv(st, ph) && st.elems != [] && Last(st.elems) == Elem.AddFile
    ensures Kept(ph, AfterEnd(env, st, cdata))
  {
    FileEndSetup(st, ph);
    var fb := st.fileBaton.value;
    var o := SimpleFetchFile(env.ed, st.out, st.href, Some(Last(st.dirs).path), env.fetchContent,
                             fb, Response(env, st.href));
    FetchKeepsContract(env.ed, st.out, st.href, Some(Last(st.dirs).path), env.fetchContent,
                       fb, Response(env, st.href), ShadowOf(st, ph));
    FetchErrorKinds(env.ed, st.out, st.href, Some(Last(st.dirs).path), env.fetchContent,
                    fb, Response(env, st.href));
    if o.err.None? {
      var st1 := st.(out := o);
      SameNodesKeepInv(st, ph, st1);
      EndFileKept(env, st1, ph, DropLast(st.elems), |st.elems| == 1);
      assert AfterEnd(env, st, cdata) == EndFile(env, st1).(elems := DropLast(st.elems), closed := |st.elems| == 1);
    } else {
      assert AfterEnd(env, st, cdata).out == o;
    }
  }

  /** What holds when an element that is not a node ends: the counts stay,
      and unless it is the report or the target revision a directory is
      open. */
  lemma LeafEndSetup(st: Report, ph: Phase)
    requires Inv(st, ph) && st.elems != []
    requires !IsDir(Last(st.elems)) && !IsFile(Last(st.elems))
    ensures ChainAfter(st.(elems := DropLast(st.elems), closed := |st.elems| == 1), DirCount(st.elems), FileCount(st.elems))
    ensures Last(st.elems) != UpdateReport && Last(st.elems) != TargetRevision ==> st.dirs != []
  {
    ChainPop(st.elems);
    if Last(st.elems) != UpdateReport && Last(st.elems) != TargetRevision {
      NestedChain(st.elems);
    } else if Last(st.elems) == UpdateReport {
      StructuralChain(st.elems);
    }
  }

  lemma EndHrefKept(env: Env, st: Report, ph: Phase, cdata: string)
    requires Inv(st, ph) && st.elems != [] && Last(st.elems) == Href
    ensures Kept(ph, AfterEnd(env, st, cdata))
  {
    LeafEndSetup(st, ph);
    if env.fetchContent {
      CurrentTargetOk(st, ph);
      var t := CurrentTarget(st).value;
      var c := SetProp(t, WcVersionUrl, Some(env.hrefPath(cdata)));
      Append1(st.out.calls, c, ShadowOf(st, ph));
      if t.FileTarget? {
        EndFileHrefKept(env, st, ph, cdata);
      } else {
        EndDirHrefKept(env, st, ph, cdata);
      }
    } else {
      var st' := AfterEnd(env, st, cdata);
      assert st' == st.(elems := DropLast(st.elems), closed := |st.elems| == 1);
      SameNodesKeepInv(st, ph, st');
    }
  }

  /** The href of a file becomes its version URL property. */
  lemma EndFileHrefKept(env: Env, st: Report, ph: Phase, cdata: string)
    requires Inv(st, ph) && st.elems != [] && Last(st.elems) == Href && env.fetchContent
    requires ChainAfter(st.(elems := DropLast(st.elems), closed := |st.elems| == 1), DirCount(st.elems), FileCount(st.elems))
    requires CurrentTarget(st).Some? && CurrentTarget(st).value.FileTarget?
    requires Replay(st.out.calls + [SetProp(CurrentTarget(st).value, WcVersionUrl, Some(env.hrefPath(cdata)))]) == Some(ShadowOf(st, ph))
    ensures Kept(ph, AfterEnd(env, st, cdata))
  {
    var o := Invoke(env.ed, st.out, SetProp(CurrentTarget(st).value, WcVersionUrl, Some(env.hrefPath(cdata))));
    var st' := AfterEnd(env, st, cdata);
    assert st' == st.(elems := DropLast(st.elems), closed := |st.elems| == 1, href := env.hrefPath(cdata), out := o);
    InvokeKeepsNodes(env.ed, st, ph, st', SetProp(CurrentTarget(st).value, WcVersionUrl, Some(env.hrefPath(cdata))));
  }

  /** The href of a directory is kept as its version URL as well. */
  lemma EndDirHrefKept(env: Env, st: Report, ph: Phase, cdata: string)
    requires Inv(st, ph) && st.elems != [] && Last(st.elems) == Href && env.fetchContent
    requires ChainAfter(st.(elems := DropLast(st.elems), closed := |st.elems| == 1), DirCount(st.elems), FileCount(st.elems))
    requires CurrentTarget(st).Some? && CurrentTarget(st).value.DirTarget? && st.dirs != []
    requires Replay(st.out.calls + [SetProp(CurrentTarget(st).value, WcVersionUrl, Some(env.hrefPath(cdata)))]) == Some(ShadowOf(st, ph))
    ensures Kept(ph, AfterEnd(env, st, cdata))
  {
    var o := Invoke(env.ed, st.out, SetProp(CurrentTarget(st).value, WcVersionUrl, Some(env.hrefPath(cdata))));
    var st' := AfterEnd(env, st, cdata);
    if o.err.None? {
      var d := Last(st.dirs).(vsnUrl := Some(env.hrefPath(cdata)));
      assert st' == st.(elems := DropLast(st.elems), closed := |st.elems| == 1, href := env.hrefPath(cdata), out := o,
                        dirs := SetTop(st.dirs, d));
      TopFlagsKeepInv(st, ph, st');
    } else {
      assert st'.out == o;
    }
  }

  /** The state after a live-property element ends: one setter call on
      the current node. */
  lemma EndLivePropKept(env: Env, st: Report, ph: Phase, cdata: string)
    requires Inv(st, ph) && st.elems != []
    requires Last(st.elems) == VersionName || Last(st.elems) == CreationDate || Last(st.elems) == CreatorDisplayname
    ensures Kept(ph, AfterEnd(env, st, cdata))
  {
    LeafEndSetup(st, ph);
    LivePropKept(env, st, ph, Last(st.elems), cdata, DropLast(st.elems), |st.elems| == 1);
  }

  /** The text of a live property becomes an entry property of the current
      node. */
  lemma LivePropKept(env: Env, st: Report, ph: Phase, e: Elem, cdata: string, elems': seq<Elem>, closed': bool)
    requires Inv(st, ph) && st.dirs != []
    requires e == VersionName || e == CreationDate || e == CreatorDisplayname
    requires ChainAfter(st.(elems := elems', closed := closed'), DirCount(st.elems), FileCount(st.elems))
    ensures Kept(ph, EndLiveProp(env, st, e, cdata).(elems := elems', closed := closed'))
  {
    CurrentTargetOk(st, ph);
    var c := SetProp(CurrentTarget(st).value, SpecialWcProp(NameOf(e).0 + NameOf(e).1).value, Some(cdata));
    EndLivePropCall(env, st, e, cdata);
    Append1(st.out.calls, c, ShadowOf(st, ph));
    var st' := EndLiveProp(env, st, e, cdata).(elems := elems', closed := closed');
    InvokeKeepsNodes(env.ed, st, ph, st', c);
  }

  /** With a node open, the end of a live property sets its entry property. */
  lemma EndLivePropCall(env: Env, st: Report, e: Elem, cdata: string)
    requires CurrentTarget(st).Some?
    requires e == VersionName || e == CreationDate || e == CreatorDisplayname
    ensures SpecialWcProp(NameOf(e).0 + NameOf(e).1).Some?
    ensures EndLiveProp(env, st, e, cdata) ==
            st.(out := Invoke(env.ed, st.out, SetProp(CurrentTarget(st).value,
                                                      SpecialWcProp(NameOf(e).0 + NameOf(e).1).value, Some(cdata))))
  {
    LivePropSetter(e);
  }

  /** Each live property the report carries has an entry-property setter. */
  lemma LivePropSetter(e: Elem)
    requires e == VersionName || e == CreationDate || e == CreatorDisplayname
    ensures SpecialWcProp(NameOf(e).0 + NameOf(e).1).Some?
  {
    SpecialWcPropValues();
    if e == VersionName {
      assert NameOf(e).0 + NameOf(e).1 == DavVersionName;
    } else if e == CreationDate {
      assert NameOf(e).0 + NameOf(e).1 == DavCreationDate;
    } else {
      assert NameOf(e).0 + NameOf(e).1 == DavCreatorDisplayname;
    }
  }

  /** Elements whose end tag does nothing but leave the element. */
  lemma EndQuietKept(env: Env, st: Report, ph: Phase, cdata: string)
    requires Inv(st, ph) && st.elems != []
    requires var e := Last(st.elems);
             e == UpdateReport || e == TargetRevision || e == Elem.DeleteEntry || e == FetchProps ||
             e == RemoveProp || e == FetchFile || e == Prop || e == CheckedIn
    ensures Kept(ph, AfterEnd(env, st, cdata))
  {
    LeafEndSetup(st, ph);
    var st' := AfterEnd(env, st, cdata);
    assert st' == st.(elems := DropLast(st.elems), closed := |st.elems| == 1);
    SameNodesKeepInv(st, ph, st');
  }

  // ---------------------------------------------------------------------
  // The parse
  // ---------------------------------------------------------------------

  /** The phase after a start tag: target-revision sets the target, and an
      open-directory with no directory open opens the root. */
  function Advance(ph: Phase, st: Report, c: Elem): Phase {
    if c == TargetRevision then ph.(targeted := true)
    else if c == Elem.OpenDirectory && st.dirs == [] then ph.(rooted := true)
    else ph
  }

  /** The phase lets the start tag c act: the target revision is set at most
      once and before the root, and the root is opened once. */
  predicate MayStart(ph: Phase, st: Report, c: Elem) {
    (c == TargetRevision ==> !ph.targeted && !ph.rooted) &&
    (c == Elem.OpenDirectory && st.dirs == [] ==> !ph.rooted)
  }

  function StepPhase(ph: Phase, st: Report, ev: Event): Phase {
    match ev
    case StartElem(ns, name, _) => Advance(ph, st, Lookup(ns, name))
    case EndElem(_) => ph
  }

  lemma StepKept(env: Env, st: Report, ph: Phase, ev: Event)
    requires Inv(st, ph)
    requires ev.StartElem? && !st.closed && Validate(Parent(st.elems), Lookup(ev.ns, ev.name)) == Valid ==>
             MayStart(ph, st, Lookup(ev.ns, ev.name))
    ensures Kept(StepPhase(ph, st, ev), Step(env, st, ev))
    ensures Step(env, st, ev).out.err.None? ==> |Step(env, st, ev).elems| == DepthAfter(ev, |st.elems|)
  {
    match ev
    case StartElem(ns, name, atts) =>
      if !st.closed {
        var c := Lookup(ns, name);
        if Validate(Parent(st.elems), c) == Valid {
          assert Step(env, st, ev) == AfterStart(env, st, c, atts);
          StartKept(env, st, ph, c, atts);
        }
      }
    case EndElem(cdata) =>
      if st.elems != [] {
        assert Step(env, st, ev) == AfterEnd(env, st, cdata);
        EndKept(env, st, ph, cdata);
      }
  }

  /** A start tag the grammar admits keeps the invariant. */
  lemma StartKept(env: Env, st: Report, ph: Phase, c: Elem, atts: seq<(string, string)>)
    requires Inv(st, ph) && Validate(Parent(st.elems), c) == Valid && !st.closed
    requires MayStart(ph, st, c)
    ensures Kept(Advance(ph, st, c), AfterStart(env, st, c, atts))
  {
    if c == UpdateReport {
      StartUpdateReportKept(env, st, ph, atts);
    } else if c == TargetRevision || IsDir(c) || IsFile(c) {
      NodeStartKept(env, st, ph, c, atts);
    } else if c == RemoveProp {
      StartRemovePropKept(env, st, ph, atts);
    } else if c == FetchProps {
      StartFetchPropsKept(env, st, ph, atts);
    } else if c == FetchFile {
      StartFetchFileKept(env, st, ph, atts);
    } else if c == Elem.DeleteEntry {
      StartDeleteEntryKept(env, st, ph, atts);
    } else {
      UnknownNeverValid(Parent(st.elems));
      StartQuietKept(env, st, ph, c, atts);
    }
  }

  lemma StartUpdateReportKept(env: Env, st: Report, ph: Phase, atts: seq<(string, string)>)
    requires Inv(st, ph) && Validate(Parent(st.elems), UpdateReport) == Valid && !st.closed
    ensures Kept(ph, AfterStart(env, st, UpdateReport, atts))
  {
    ChainPush(st.elems, UpdateReport);
    StructuralParents(Parent(st.elems), UpdateReport);
    var st' := AfterStart(env, st, UpdateReport, atts);
    assert st' == st.(elems := st.elems + [UpdateReport]);
    SameNodesKeepInv(st, ph, st');
  }

  /** The start tags that set the target revision or open a node. */
  lemma NodeStartKept(env: Env, st: Report, ph: Phase, c: Elem, atts: seq<(string, string)>)
    requires Inv(st, ph) && Validate(Parent(st.elems), c) == Valid
    requires c == TargetRevision || IsDir(c) || IsFile(c)
    requires MayStart(ph, st, c)
    ensures Kept(Advance(ph, st, c), AfterStart(env, st, c, atts))
  {
    if c == TargetRevision {
      StartTargetRevisionKept(env, st, ph, atts);
    } else if c == Elem.OpenDirectory {
      StartOpenDirectoryKept(env, st, ph, atts);
    } else if c == Elem.AddDirectory {
      StartAddDirectoryKept(env, st, ph, atts);
    } else if c == Elem.OpenFile {
      StartOpenFileKept(env, st, ph, atts);
    } else {
      StartAddFileKept(env, st, ph, atts);
    }
  }

  /** An end tag inside an open element keeps the invariant. */
  lemma EndKept(env: Env, st: Report, ph: Phase, cdata: string)
    requires Inv(st, ph) && st.elems != []
    ensures Kept(ph, AfterEnd(env, st, cdata))
  {
    var e := Last(st.elems);
    ChainPop(st.elems);
    if IsDir(e) {
      EndDirectoryKept(env, st, ph, cdata);
    } else if e == Elem.OpenFile {
      EndOpenFileKept(env, st, ph, cdata);
    } else if e == Elem.AddFile {
      EndAddFileKept(env, st, ph, cdata);
    } else if e == Href {
      EndHrefKept(env, st, ph, cdata);
    } else if e == VersionName || e == CreationDate || e == CreatorDisplayname {
      EndLivePropKept(env, st, ph, cdata);
    } else {
      EndQuietKept(env, st, ph, cdata);
    }
  }

  // ---------------------------------------------------------------------
  // The root, once
  // ---------------------------------------------------------------------

  /** The elements a start tag opens directly inside update-report, which
      is the one element open at depth one. */
  function Opened(ev: Event, depth: nat): seq<Elem> {
    if ev.StartElem? && depth == 1 then [Lookup(ev.ns, ev.name)] else []
  }

  /** The number of open elements after an event. */
  function DepthAfter(ev: Event, depth: nat): nat {
    if ev.StartElem? then depth + 1 else if depth == 0 then 0 else depth - 1
  }

  /** The children of update-report in a response, in document order, read
      from the events with depth elements open before the first. */
  function TopChildren(events: seq<Event>, depth: nat): seq<Elem>
    decreases |events|
  {
    if events == [] then []
    else Opened(events[0], depth) + TopChildren(events[1..], DepthAfter(events[0], depth))
  }

  /** No target-revision or open-directory follows an open-directory, and no
      target-revision follows another. */
  predicate RootOnce(c: seq<Elem>)
    decreases |c|
  {
    c == [] ||
    ((c[0] == Elem.OpenDirectory ==> TargetRevision !in c[1..] && Elem.OpenDirectory !in c[1..]) &&
     (c[0] == TargetRevision ==> TargetRevision !in c[1..]) &&
     RootOnce(c[1..]))
  }

  /** The children of update-report a report must have for the edit it drives
      to open its root exactly once: at most one target-revision, then one
      open-directory, with no second one. */
  predicate OneRoot(c: seq<Elem>) {
    RootOnce(c) && Elem.OpenDirectory in c
  }

  /** The children still to come fit the phase the parse is in. */
  predicate Allowed(ph: Phase, c: seq<Elem>) {
    RootOnce(c) &&
    (ph.rooted ==> TargetRevision !in c && Elem.OpenDirectory !in c) &&
    (ph.targeted ==> TargetRevision !in c)
  }

  /** The root is open, or an open-directory child is still to come. */
  predicate RootAhead(ph: Phase, c: seq<Elem>) {
    ph.rooted || Elem.OpenDirectory in c
  }

  /** A start tag the grammar admits at depth one is a child of update-report,
      and a target-revision, or an open-directory with no directory open, is
      admitted only there. */
  lemma DepthOneChildren(st: Report, ph: Phase, c: Elem)
    requires Inv(st, ph) && Validate(Parent(st.elems), c) == Valid
    ensures |st.elems| == 1 ==> st.dirs == [] && (c == TargetRevision || c == Elem.OpenDirectory)
    ensures c == TargetRevision || (c == Elem.OpenDirectory && st.dirs == []) ==> |st.elems| == 1
  {
    if |st.elems| == 1 {
      assert DropLast(st.elems) == [];
      assert Validate(Root, Last(st.elems)) == Valid;
      assert Last(st.elems) == UpdateReport;
      assert DirCount(st.elems) == DirCount([]) + 0;
      ReportChildren(c);
    }
    if c == Elem.OpenDirectory {
      StructuralParents(Parent(st.elems), c);
      if st.elems != [] && IsDir(Last(st.elems)) {
        assert DirCount(st.elems) > 0;
      }
    }
    if st.elems != [] && Last(st.elems) == UpdateReport {
      StructuralChain(st.elems);
    }
  }

  /** One event keeps the children still to come fitting the phase, and
      lets a start tag act. */
  lemma PhaseStep(st: Report, ph: Phase, ev: Event, more: seq<Elem>)
    requires Inv(st, ph) && Allowed(ph, Opened(ev, |st.elems|) + more)
    ensures ev.StartElem? && Validate(Parent(st.elems), Lookup(ev.ns, ev.name)) == Valid ==>
            MayStart(ph, st, Lookup(ev.ns, ev.name)) && Allowed(StepPhase(ph, st, ev), more) &&
            (RootAhead(ph, Opened(ev, |st.elems|) + more) ==> RootAhead(StepPhase(ph, st, ev), more))
    ensures ev.EndElem? ==> Allowed(ph, more) && (RootAhead(ph, Opened(ev, |st.elems|) + more) ==> RootAhead(ph, more))
  {
    var c := Opened(ev, |st.elems|) + more;
    if ev.StartElem? && Validate(Parent(st.elems), Lookup(ev.ns, ev.name)) == Valid {
      var e := Lookup(ev.ns, ev.name);
      DepthOneChildren(st, ph, e);
      if |st.elems| == 1 {
        assert c == [e] + more && c[0] == e && c[1..] == more;
      } else {
        assert c == more;
      }
    } else if ev.EndElem? {
      assert c == more;
    }
  }

  /** The end of a parse: the contract accepts the trace, the defensive
      branch was never taken, and without an error the invariant holds in
      the phase the contract has reached. */
  ghost predicate Finished(r: Report) {
    Replay(r.out.calls).Some? && r.out.err != Some(NoOpenNode) &&
    (r.out.err.None? ==> Inv(r, Phase(Replay(r.out.calls).value.targeted, Replay(r.out.calls).value.rooted)))
  }

  lemma {:induction false} RunKept(env: Env, st: Report, ph: Phase, events: seq<Event>)
    requires Inv(st, ph) && Allowed(ph, TopChildren(events, |st.elems|))
    ensures Finished(Run(env, st, events))
    ensures RootAhead(ph, TopChildren(events, |st.elems|)) && Run(env, st, events).out.err.None? ==>
            Replay(Run(env, st, events).out.calls).value.rooted
    decreases |events|
  {
    if events == [] {
      assert Run(env, st, events) == st;
    } else {
      var ev := events[0];
      var more := TopChildren(events[1..], DepthAfter(ev, |st.elems|));
      PhaseStep(st, ph, ev, more);
      StepKept(env, st, ph, ev);
      var st1 := Step(env, st, ev);
      if st1.out.err.None? {
        RunKept(env, st1, StepPhase(ph, st, ev), events[1..]);
      } else {
        assert Run(env, st, events) == st1;
      }
    }
  }

  /** Whatever the server sends and whichever editor calls fail, the report
      parser never makes an editor call the contract forbids, and never finds
      itself without the node an element acts on, provided update-report
      holds at most one target-revision followed by one open-directory. */
  lemma ReportNeverBreaksContract(env: Env, events: seq<Event>)
    requires OneRoot(TopChildren(events, 0))
    ensures Replay(FinishReport(env, events).calls).Some?
    ensures FinishReport(env, events).err != Some(NoOpenNode)
  {
    InitInv();
    RunKept(env, Init, Phase(false, false), events);
    var st := Run(env, Init, events);
    if st.out.err.None? && st.closed {
      var ph := Phase(Replay(st.out.calls).value.targeted, true);
      Append1(st.out.calls, CloseEdit, ShadowOf(st, ph).(ended := true));
    }
  }

  /** A report of that shape that parses without error drives a complete
      edit: the root is opened once, every directory and file opened is
      closed, and close_edit comes last. */
  lemma SuccessfulReportIsComplete(env: Env, events: seq<Event>)
    requires OneRoot(TopChildren(events, 0))
    requires FinishReport(env, events).err.None?
    ensures Complete(FinishReport(env, events).calls)
    ensures Last(FinishReport(env, events).calls) == CloseEdit
    ensures Count(FinishReport(env, events).calls, OpensDir) ==
            Count(FinishReport(env, events).calls, ClosesDir)
    ensures Count(FinishReport(env, events).calls, OpensFile) ==
            Count(FinishReport(env, events).calls, ClosesFile)
    ensures Count(FinishReport(env, events).calls, OpensRoot) == 1
  {
    InitInv();
    RunKept(env, Init, Phase(false, false), events);
    var st := Run(env, Init, events);
    var ph := Phase(Replay(st.out.calls).value.targeted, true);
    assert st.closed && Inv(st, ph);
    assert st.dirs == [] && st.fileBaton.None?;
    Append1(st.out.calls, CloseEdit, ShadowOf(st, ph).(ended := true));
    CompleteIsBalanced(FinishReport(env, events).calls);
  }

  // ---------------------------------------------------------------------
  // Reports the grammar admits that break the contract
  // ---------------------------------------------------------------------

  const ReportStart: Event := StartElem(PropPrefix, "update-report", [])
  /** An open-directory start tag carrying only a revision. */
  function RootStart(rev: string): Event {
    StartElem(PropPrefix, "open-directory", [("rev", rev)])
  }

  /** A response whose update-report holds two open-directory children. */
  function TwoRoots(rev: string): seq<Event> {
    [ReportStart, RootStart(rev), EndElem(""), RootStart(rev), EndElem(""), EndElem("")]
  }

  /** With only update-report open, open-directory opens the root. */
  lemma RootStartStep(env: Env, st: Report, rev: string)
    requires st.out.err.None? && |st.out.calls| !in env.ed.failing
    requires st.elems == [UpdateReport] && st.dirs == [] && st.fileBaton.None? && !st.closed
    ensures Step(env, st, RootStart(rev)) ==
            st.(out := Invoke(env.ed, st.out, OpenRoot(StrToRev(rev))),
                dirs := [DirItem(|st.out.calls|, false, None, RootPath)],
                elems := [UpdateReport, Elem.OpenDirectory])
  {
    assert Lookup(PropPrefix, "open-directory") == Elem.OpenDirectory;
    assert GetAttr([("rev", rev)], "rev") == Some(rev);
  }

  /** The end of the root directory closes it. */
  lemma RootEndStep(env: Env, st: Report, b: Baton)
    requires st.out.err.None? && |st.out.calls| !in env.ed.failing
    requires st.elems == [UpdateReport, Elem.OpenDirectory] && st.dirs == [DirItem(b, false, None, RootPath)]
    requires st.fileBaton.None? && !st.closed
    ensures Step(env, st, EndElem("")) ==
            st.(out := Invoke(env.ed, st.out, CloseDirectory(b)), dirs := [], elems := [UpdateReport])
  {
    assert DropLast(st.elems) == [UpdateReport];
  }

  /** The start of update-report opens the report. */
  lemma ReportStartStep(env: Env)
    ensures Step(env, Init, ReportStart) == Init.(elems := [UpdateReport])
  {
    assert Lookup(PropPrefix, "update-report") == UpdateReport;
  }

  /** The end of update-report closes the document. */
  lemma ReportEndStep(env: Env, st: Report)
    requires st.out.err.None? && st.elems == [UpdateReport] && st.dirs == [] && st.fileBaton.None? && !st.closed
    ensures Step(env, st, EndElem("")) == st.(elems := [], closed := true)
  {
    assert DropLast(st.elems) == [];
  }

  /** A parse goes on with the state after its first event. */
  lemma RunOn(env: Env, st: Report, ev: Event, rest: seq<Event>)
    requires st.out.err.None?
    ensures Run(env, st, [ev] + rest) == Run(env, Step(env, st, ev), rest)
  {
    assert ([ev] + rest)[1..] == rest;
  }

  lemma TopChildrenOn(ev: Event, rest: seq<Event>, depth: nat)
    ensures TopChildren([ev] + rest, depth) == Opened(ev, depth) + TopChildren(rest, DepthAfter(ev, depth))
  {
    assert ([ev] + rest)[1..] == rest;
  }

  /** The parse past an open-directory that opens the root. */
  lemma RootStartRun(env: Env, st: Report, rest: seq<Event>, rev: string)
    requires st.out.err.None? && |st.out.calls| !in env.ed.failing
    requires st.elems == [UpdateReport] && st.dirs == [] && st.fileBaton.None? && !st.closed
    ensures Run(env, st, [RootStart(rev)] + rest) ==
            Run(env, st.(out := Invoke(env.ed, st.out, OpenRoot(StrToRev(rev))),
                         dirs := [DirItem(|st.out.calls|, false, None, RootPath)],
                         elems := [UpdateReport, Elem.OpenDirectory]), rest)
  {
    RootStartStep(env, st, rev);
    RunOn(env, st, RootStart(rev), rest);
  }

  /** The parse past the end of the root directory. */
  lemma RootEndRun(env: Env, st: Report, b: Baton, rest: seq<Event>)
    requires st.out.err.None? && |st.out.calls| !in env.ed.failing
    requires st.elems == [UpdateReport, Elem.OpenDirectory] && st.dirs == [DirItem(b, false, None, RootPath)]
    requires st.fileBaton.None? && !st.closed
    ensures Run(env, st, [EndElem("")] + rest) ==
            Run(env, st.(out := Invoke(env.ed, st.out, CloseDirectory(b)), dirs := [], elems := [UpdateReport]), rest)
  {
    RootEndStep(env, st, b);
    RunOn(env, st, EndElem(""), rest);
  }

  /** With only update-report open, an open-directory with nothing in it
      opens the root and closes it again. */
  lemma RootOpenClose(env: Env, st: Report, rest: seq<Event>, rev: string)
    requires st.out.err.None? && st.elems == [UpdateReport] && st.dirs == [] && st.fileBaton.None? && !st.closed
    requires |st.out.calls| !in env.ed.failing && |st.out.calls| + 1 !in env.ed.failing
    ensures Run(env, st, [RootStart(rev)] + ([EndElem("")] + rest)) ==
            Run(env, st.(out := Out(st.out.calls + [OpenRoot(StrToRev(rev)), CloseDirectory(|st.out.calls|)], None)), rest)
  {
    var b := |st.out.calls|;
    var st2 := st.(out := Invoke(env.ed, st.out, OpenRoot(StrToRev(rev))), dirs := [DirItem(b, false, None, RootPath)],
                   elems := [UpdateReport, Elem.OpenDirectory]);
    RootStartRun(env, st, [EndElem("")] + rest, rev);
    RootEndRun(env, st2, b, rest);
    InvokeTwice(env.ed, st.out, OpenRoot(StrToRev(rev)), CloseDirectory(b));
  }

  /** Two editor calls that both succeed append both to the trace. */
  lemma InvokeTwice(ed: Editor, o: Out, a: Effect, c: Effect)
    requires o.err.None? && |o.calls| !in ed.failing && |o.calls| + 1 !in ed.failing
    ensures Invoke(ed, Invoke(ed, o, a), c) == Out(o.calls + [a, c], None)
  {
    assert Invoke(ed, o, a) == Out(o.calls + [a], None);
  }

  /** TwoRoots, one event at a time. */
  lemma TwoRootsShape(rev: string)
    ensures TwoRoots(rev) == [ReportStart] + ([RootStart(rev)] + ([EndElem("")] + ([RootStart(rev)] + ([EndElem("")] + [EndElem("")]))))
  {
  }

  /** The state after the first open-directory child of TwoRoots. */
  function FirstRootDone(rev: string): Report {
    Init.(elems := [UpdateReport], out := Out([OpenRoot(StrToRev(rev)), CloseDirectory(0)], None))
  }

  /** The parse of TwoRoots up to the end of its first open-directory. */
  lemma TwoRootsFirstHalf(env: Env, rev: string)
    requires env.ed.failing == {}
    ensures Run(env, Init, TwoRoots(rev)) == Run(env, FirstRootDone(rev), [RootStart(rev)] + ([EndElem("")] + [EndElem("")]))
  {
    var st1 := Init.(elems := [UpdateReport]);
    var e3 := [RootStart(rev)] + ([EndElem("")] + [EndElem("")]);
    TwoRootsShape(rev);
    ReportStartRun(env, [RootStart(rev)] + ([EndElem("")] + e3));
    RootOpenClose(env, st1, e3, rev);
    assert st1.out.calls + [OpenRoot(StrToRev(rev)), CloseDirectory(|st1.out.calls|)] == FirstRootDone(rev).out.calls;
  }

  /** The parse of the rest of TwoRoots opens the root a second time. */
  lemma TwoRootsSecondHalf(env: Env, rev: string)
    requires env.ed.failing == {}
    ensures var r := StrToRev(rev);
            Run(env, FirstRootDone(rev), [RootStart(rev)] + ([EndElem("")] + [EndElem("")])) ==
            Init.(out := Out([OpenRoot(r), CloseDirectory(0), OpenRoot(r), CloseDirectory(2)], None), closed := true)
  {
    var r := StrToRev(rev);
    var st3 := FirstRootDone(rev);
    var st5 := st3.(out := Out(st3.out.calls + [OpenRoot(r), CloseDirectory(2)], None));
    var e1 := [EndElem("")];
    RootOpenClose(env, st3, e1, rev);
    assert st5.out.calls == [OpenRoot(r), CloseDirectory(0), OpenRoot(r), CloseDirectory(2)];
    ReportEndRun(env, st5);
  }

  /** The states the parse of TwoRoots passes through. */
  lemma TwoRootsRun(env: Env, rev: string)
    requires env.ed.failing == {}
    ensures var r := StrToRev(rev);
            Run(env, Init, TwoRoots(rev)) ==
            Init.(out := Out([OpenRoot(r), CloseDirectory(0), OpenRoot(r), CloseDirectory(2)], None), closed := true)
  {
    TwoRootsFirstHalf(env, rev);
    TwoRootsSecondHalf(env, rev);
  }

  /** The parse past the start of update-report. */
  lemma ReportStartRun(env: Env, rest: seq<Event>)
    ensures Run(env, Init, [ReportStart] + rest) == Run(env, Init.(elems := [UpdateReport]), rest)
  {
    ReportStartStep(env);
    RunOn(env, Init, ReportStart, rest);
  }

  /** The parse of the end of update-report closes the document. */
  lemma ReportEndRun(env: Env, st: Report)
    requires st.out.err.None? && st.elems == [UpdateReport] && st.dirs == [] && st.fileBaton.None? && !st.closed
    ensures Run(env, st, [EndElem("")]) == st.(elems := [], closed := true)
  {
    ReportEndStep(env, st);
    RunOn(env, st, EndElem(""), []);
    assert [EndElem("")] == [EndElem("")] + [];
  }

  /** The grammar admits both open-directory children, and with no directory
      open the second one opens the root again: the edit the parser drives
      is one the contract rejects. */
  lemma TwoRootsBreakContract(env: Env, rev: string)
    requires env.ed.failing == {}
    ensures Replay(FinishReport(env, TwoRoots(rev)).calls).None?
  {
    var r := StrToRev(rev);
    var bad := [OpenRoot(r), CloseDirectory(0), OpenRoot(r)];
    TwoRootsFinish(env, rev);
    SecondRootRejected(r);
    ReplayRejectionSticks(bad, [CloseDirectory(2), CloseEdit]);
  }

  /** The edit the parse of TwoRoots drives: the root twice, then close_edit. */
  lemma TwoRootsFinish(env: Env, rev: string)
    requires env.ed.failing == {}
    ensures var r := StrToRev(rev);
            FinishReport(env, TwoRoots(rev)).calls == [OpenRoot(r), CloseDirectory(0), OpenRoot(r)] + [CloseDirectory(2), CloseEdit]
  {
    TwoRootsRun(env, rev);
  }

  /** The grammar admits two open-directory children of update-report. */
  lemma TwoRootsAdmitted(rev: string)
    ensures TopChildren(TwoRoots(rev), 0) == [Elem.OpenDirectory, Elem.OpenDirectory]
    ensures Validate(UpdateReport, Elem.OpenDirectory) == Valid
  {
    assert Lookup(PropPrefix, "open-directory") == Elem.OpenDirectory;
    var e1 := [EndElem("")];
    var e2 := [EndElem("")] + e1;
    var e3 := [RootStart(rev)] + e2;
    var e4 := [EndElem("")] + e3;
    var e5 := [RootStart(rev)] + e4;
    assert TwoRoots(rev) == [ReportStart] + e5;
    TopChildrenOn(ReportStart, e5, 0);
    TopChildrenOn(RootStart(rev), e4, 1);
    TopChildrenOn(EndElem(""), e3, 2);
    TopChildrenOn(RootStart(rev), e2, 1);
    TopChildrenOn(EndElem(""), e1, 2);
    TopChildrenOn(EndElem(""), [], 1);
    assert e1 == [EndElem("")] + [];
  }

  /** The contract rejects a second open_root once the first root is closed. */
  lemma SecondRootRejected(r: int)
    ensures Replay([OpenRoot(r), CloseDirectory(0), OpenRoot(r)]).None?
  {
    var c2 := [OpenRoot(r)] + [CloseDirectory(0)];
    RootClosed(r);
    ReplayAppend(c2, OpenRoot(r));
    assert c2 + [OpenRoot(r)] == [OpenRoot(r), CloseDirectory(0), OpenRoot(r)];
  }

  /** The contract accepts opening the root and closing it. */
  lemma RootClosed(r: int)
    ensures Replay([OpenRoot(r)] + [CloseDirectory(0)]) == Some(Fresh.(rooted := true))
  {
    assert [OpenRoot(r)] == [] + [OpenRoot(r)];
    Append1([], OpenRoot(r), Fresh.(dirs := [0], rooted := true));
    Append1([OpenRoot(r)], CloseDirectory(0), Fresh.(rooted := true));
  }

  /** An update-report with no open-directory: the grammar admits it, and
      the parser closes an edit whose root it never opened. */
  lemma EmptyReportBreaksContract(env: Env)
    requires env.ed.failing == {}
    ensures TopChildren([ReportStart, EndElem("")], 0) == []
    ensures FinishReport(env, [ReportStart, EndElem("")]).calls == [CloseEdit]
    ensures Replay(FinishReport(env, [ReportStart, EndElem("")]).calls).None?
  {
    EmptyReportFinish(env);
    assert [ReportStart, EndElem("")] == [ReportStart] + [EndElem("")];
    TopChildrenOn(ReportStart, [EndElem("")], 0);
    TopChildrenOn(EndElem(""), [], 1);
    assert [CloseEdit] == [] + [CloseEdit];
    ReplayAppend([], CloseEdit);
  }

  /** The flags the corrected step reads off the trace are the phase's. */
  lemma PhaseFromTrace(st: Report, ph: Phase)
    requires Inv(st, ph)
    ensures ph.rooted <==> Count(st.out.calls, OpensRoot) > 0
    ensures ph.targeted <==> Count(st.out.calls, SetsTarget) > 0
  {
    ReplayCountsRoots(st.out.calls);
  }

  /** The corrected parse keeps the contract on every input: a child that
      would break it is refused before it acts. */
  lemma {:induction false} RunRootedKept(env: Env, st: Report, ph: Phase, events: seq<Event>)
    requires Inv(st, ph)
    ensures Finished(RunRooted(env, st, events))
    decreases |events|
  {
    if events == [] {
      assert RunRooted(env, st, events) == st;
    } else {
      var ev := events[0];
      PhaseFromTrace(st, ph);
      if ev.StartElem? && !st.closed && SecondRoot(st, Lookup(ev.ns, ev.name)) {
        assert RunRooted(env, st, events) == Stop(st, GrammarError);
      } else {
        StepKept(env, st, ph, ev);
        var st1 := Step(env, st, ev);
        assert StepRooted(env, st, ev) == st1;
        if st1.out.err.None? {
          RunRootedKept(env, st1, StepPhase(ph, st, ev), events[1..]);
        } else {
          assert RunRooted(env, st, events) == st1;
        }
      }
    }
  }

  /** On children that fit the phase, the corrected parse is the source's. */
  lemma {:induction false} RunRootedAgrees(env: Env, st: Report, ph: Phase, events: seq<Event>)
    requires Inv(st, ph) && Allowed(ph, TopChildren(events, |st.elems|))
    ensures RunRooted(env, st, events) == Run(env, st, events)
    decreases |events|
  {
    if events != [] {
      var ev := events[0];
      var more := TopChildren(events[1..], DepthAfter(ev, |st.elems|));
      PhaseStep(st, ph, ev, more);
      PhaseFromTrace(st, ph);
      assert StepRooted(env, st, ev) == Step(env, st, ev);
      StepKept(env, st, ph, ev);
      var st1 := Step(env, st, ev);
      if st1.out.err.None? {
        RunRootedAgrees(env, st1, StepPhase(ph, st, ev), events[1..]);
      }
    }
  }

  /** With a second root refused and close_edit held back until the root is
      open, the report parser never breaks the contract, whatever the
      server sends, and a report that succeeds is a complete edit. */
  lemma RootedReportKeepsContract(env: Env, events: seq<Event>)
    ensures Replay(FinishReportRooted(env, events).calls).Some?
    ensures FinishReportRooted(env, events).err != Some(NoOpenNode)
    ensures FinishReportRooted(env, events).err.None? ==>
            Complete(FinishReportRooted(env, events).calls) &&
            Last(FinishReportRooted(env, events).calls) == CloseEdit &&
            Count(FinishReportRooted(env, events).calls, OpensRoot) == 1
  {
    InitInv();
    RunRootedKept(env, Init, Phase(false, false), events);
    var st := RunRooted(env, Init, events);
    if st.out.err.None? && st.closed {
      ReplayCountsRoots(st.out.calls);
      var sh := Replay(st.out.calls).value;
      if sh.rooted {
        assert Inv(st, Phase(sh.targeted, true));
        assert st.dirs == [] && st.fileBaton.None?;
        CloseRootedEdit(st.out.calls, sh);
      }
    }
  }

  /** Where the report has the one root it needs, the corrected finish is
      the one the source runs. */
  lemma RootedFinishAgrees(env: Env, events: seq<Event>)
    requires OneRoot(TopChildren(events, 0))
    ensures FinishReportRooted(env, events) == FinishReport(env, events)
  {
    InitInv();
    RunRootedAgrees(env, Init, Phase(false, false), events);
    RunKept(env, Init, Phase(false, false), events);
    var st := Run(env, Init, events);
    if st.out.err.None? && st.closed {
      ReplayCountsRoots(st.out.calls);
    }
  }

  /** The empty update-report is refused before close_edit. */
  lemma EmptyReportRefused(env: Env)
    ensures FinishReportRooted(env, [ReportStart, EndElem("")]) == Out([], Some(GrammarError))
  {
    var st1 := Init.(elems := [UpdateReport]);
    ReportStartStep(env);
    ReportEndStep(env, st1);
    assert Lookup(PropPrefix, "update-report") == UpdateReport;
    assert StepRooted(env, Init, ReportStart) == st1;
    assert StepRooted(env, st1, EndElem("")) == st1.(elems := [], closed := true);
    var st2 := st1.(elems := [], closed := true);
    assert [ReportStart, EndElem("")][1..] == [EndElem("")];
    assert RunRooted(env, Init, [ReportStart, EndElem("")]) == RunRooted(env, st1, [EndElem("")]);
    assert RunRooted(env, st1, [EndElem("")]) == RunRooted(env, st2, []) == st2;
    assert st2.out == Out([], None);
  }

  /** close_edit once the root is open and everything else closed completes
      the edit. */
  lemma CloseRootedEdit(calls: seq<Effect>, s: Shadow)
    requires Replay(calls) == Some(s) && s.rooted && s.dirs == [] && s.file.None? && !s.delta && !s.ended
    ensures Complete(calls + [CloseEdit]) && Last(calls + [CloseEdit]) == CloseEdit
    ensures Count(calls + [CloseEdit], OpensRoot) == 1
  {
    Append1(calls, CloseEdit, s.(ended := true));
    ReplayCountsRoots(calls + [CloseEdit]);
  }

  /** The edit the parse of an empty update-report drives. */
  lemma EmptyReportFinish(env: Env)
    requires env.ed.failing == {}
    ensures FinishReport(env, [ReportStart, EndElem("")]).calls == [CloseEdit]
  {
    var st1 := Init.(elems := [UpdateReport]);
    ReportStartStep(env);
    ReportEndStep(env, st1);
    assert [ReportStart, EndElem("")] == [ReportStart] + ([EndElem("")] + []);
    RunOn(env, Init, ReportStart, [EndElem("")]);
    RunOn(env, st1, EndElem(""), []);
  }
}
