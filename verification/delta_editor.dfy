/** The tree-delta editor as the drivers see it: the calls they make, the
    text-delta windows they hand to a window handler, and the network
    requests they issue along the way, all recorded in one trace.

    The editor itself is abstracted to which of its calls return an error.
    A baton is the position in the trace of the call that opened the node,
    so every open call yields a fresh baton.

    `Replay` is the editor contract stated as a checker over a trace:
    directories open and close as a stack, a child is opened under the
    innermost open directory, at most one file is open, a delta stream is
    only fed between apply_textdelta and its terminating empty window, and
    nothing follows close_edit. */
module DeltaEditor {
  import opened SvnTypes

  type Baton = nat

  /** svn_txdelta_source, svn_txdelta_target, svn_txdelta_new */
  datatype OpAction = SourceOp | TargetOp | NewOp

  datatype Op = Op(action: OpAction, offset: nat, length: nat)

  /** svn_txdelta_window_t */
  datatype Window = Window(sviewOffset: nat, sviewLen: nat, tviewLen: nat, ops: seq<Op>, newData: Bytes)

  /** One entry of a driver's trace. */
  datatype Effect =
    | SetTargetRevision(rev: int)
    | OpenRoot(baseRev: int)
    | OpenDirectory(name: string, parent: Baton, baseRev: int)
    | AddDirectory(name: string, parent: Baton, copyfromPath: Option<Path>, copyfromRev: int)
    | OpenFile(name: string, parent: Baton, baseRev: int)
    | AddFile(name: string, parent: Baton, copyfromPath: Option<Path>, copyfromRev: int)
    | ChangeDirProp(dir: Baton, propName: string, value: Option<string>)
    | ChangeFileProp(file: Baton, propName: string, value: Option<string>)
    | DeleteEntry(name: string, rev: int, parent: Baton)
    | ApplyTextDelta(file: Baton)
      /** A call of the window handler apply_textdelta returned; None is the
          terminating empty window. */
    | SendWindow(window: Option<Window>)
      /** Bytes written to the svndiff parser, which calls the window handler
          on its own. */
    | SvndiffWrite(data: Bytes)
    | CloseDirectory(dir: Baton)
    | CloseFile(file: Baton)
    | CloseEdit
      /** Network requests: a GET of a file's content, a depth-0 PROPFIND of
          one resource, a depth-1 PROPFIND listing a collection. */
    | Get(url: string, relpath: Option<Path>)
    | Propfind(url: string)
    | ListCollection(url: string)

  predicate IsRequest(e: Effect) {
    e.Get? || e.Propfind? || e.ListCollection?
  }

  datatype Error =
    | EditorError(index: nat)      // the editor call at this trace position failed
    | FsError                      // a filesystem query failed
    | NetworkError(url: string)    // a request failed in transport
    | HttpStatus(code: int)        // a GET answered with a status other than 200 or 226
    | GrammarError                 // an element where the report grammar does not admit it
    | MissingAttribute(att: string)
    | XmlError                     // a document that is not well formed
    | NoVersionUrl                 // a directory's properties were wanted before its version URL arrived
    | NoOpenNode                   // an element that acts on the current node arrived with none open

  /** The editor, abstracted to the trace positions at which its calls
      (including window-handler calls and svndiff writes) return an error. */
  datatype Editor = Editor(failing: set<nat>)

  /** A driver's trace so far and the first error it met. */
  datatype Out = Out(calls: seq<Effect>, err: Option<Error>)

  const Start: Out := Out([], None)

  /** Make an editor call whose error the driver propagates. The first error is kept. */
  function Invoke(ed: Editor, o: Out, c: Effect): Out {
    var i := |o.calls|;
    Out(o.calls + [c], if o.err.Some? then o.err else if i in ed.failing then Some(EditorError(i)) else None)
  }

  /** Make an editor call whose return value the driver ignores. */
  function InvokeIgnoringError(o: Out, c: Effect): Out {
    Out(o.calls + [c], o.err)
  }

  /** Record a network request. */
  function Request(o: Out, r: Effect): Out {
    Out(o.calls + [r], o.err)
  }

  /** Stop with an error unless one is already recorded. */
  function Fail(o: Out, e: Error): Out {
    Out(o.calls, if o.err.Some? then o.err else Some(e))
  }

  /** No editor call at trace positions from..to-1 fails. */
  predicate NoFailures(ed: Editor, from: nat, to: nat) {
    forall i :: from <= i < to ==> i !in ed.failing
  }

  function Last<T>(s: seq<T>): T
    requires |s| > 0
  {
    s[|s| - 1]
  }

  function DropLast<T>(s: seq<T>): seq<T>
    requires |s| > 0
  {
    s[..|s| - 1]
  }

  // ---------------------------------------------------------------------
  // The editor contract as a trace checker
  // ---------------------------------------------------------------------

  /** What the contract tracks: the open directories, innermost last; the open
      file; whether a delta stream is being fed; whether the edit is over;
      whether the target revision was set; whether the root was opened. */
  datatype Shadow = Shadow(dirs: seq<Baton>, file: Option<Baton>, delta: bool, ended: bool,
                           targeted: bool, rooted: bool)

  const Fresh: Shadow := Shadow([], None, false, false, false, false)

  /** After set_target_revision and open_root, with nothing open. */
  const Started: Shadow := Shadow([], None, false, false, true, true)

  /** A node may be opened, changed or have an entry deleted under the
      innermost open directory only while no file is open. */
  predicate AtTop(s: Shadow, b: Baton) {
    |s.dirs| > 0 && b == Last(s.dirs) && s.file.None?
  }

  /** The contract's verdict on effect c made at trace position i. The
      target revision is set at most once, before the root; the root is
      opened once; close_edit comes once the root is closed, and nothing
      after it. Closing a file in the middle of its delta stream abandons
      the stream and with it the edit: no call may follow. */
  function ReplayStep(s: Shadow, c: Effect, i: nat): Option<Shadow> {
    if s.ended then None
    else match c
      case SetTargetRevision(_) =>
        if !s.targeted && !s.rooted then Some(s.(targeted := true)) else None
      case OpenRoot(_) =>
        if !s.rooted && s.dirs == [] && s.file.None? then Some(s.(dirs := [i], rooted := true)) else None
      case OpenDirectory(_, p, _) =>
        if AtTop(s, p) then Some(s.(dirs := s.dirs + [i])) else None
      case AddDirectory(_, p, _, _) =>
        if AtTop(s, p) then Some(s.(dirs := s.dirs + [i])) else None
      case OpenFile(_, p, _) =>
        if AtTop(s, p) then Some(s.(file := Some(i), delta := false)) else None
      case AddFile(_, p, _, _) =>
        if AtTop(s, p) then Some(s.(file := Some(i), delta := false)) else None
      case ChangeDirProp(b, _, _) =>
        if AtTop(s, b) then Some(s) else None
      case ChangeFileProp(f, _, _) =>
        if s.file == Some(f) then Some(s) else None
      case DeleteEntry(_, _, p) =>
        if AtTop(s, p) then Some(s) else None
      case ApplyTextDelta(f) =>
        if s.file == Some(f) && !s.delta then Some(s.(delta := true)) else None
      case SendWindow(w) =>
        if s.delta then Some(s.(delta := w.Some?)) else None
      case SvndiffWrite(_) =>
        if s.delta then Some(s) else None
      case CloseFile(f) =>
        if s.file == Some(f) then Some(s.(file := None, delta := false, ended := s.delta)) else None
      case CloseDirectory(b) =>
        if AtTop(s, b) then Some(s.(dirs := DropLast(s.dirs))) else None
      case CloseEdit =>
        if s.rooted && s.dirs == [] && s.file.None? then Some(s.(ended := true)) else None
      case Get(_, _) => Some(s)
      case Propfind(_) => Some(s)
      case ListCollection(_) => Some(s)
  }

  /** The contract's state after a whole trace, or None if some call broke it. */
  function Replay(calls: seq<Effect>): Option<Shadow>
    decreases |calls|
  {
    if calls == [] then Some(Fresh)
    else match Replay(DropLast(calls))
      case None => None
      case Some(s) => ReplayStep(s, Last(calls), |calls| - 1)
  }

  lemma ReplayAppend(calls: seq<Effect>, c: Effect)
    ensures Replay(calls + [c]) ==
            (match Replay(calls) case None => None case Some(s) => ReplayStep(s, c, |calls|))
  {
    assert DropLast(calls + [c]) == calls;
  }

  /** One more call the contract accepts. */
  lemma Append1(calls: seq<Effect>, c: Effect, s: Shadow)
    requires Replay(calls).Some? && ReplayStep(Replay(calls).value, c, |calls|) == Some(s)
    ensures Replay(calls + [c]) == Some(s)
  {
    ReplayAppend(calls, c);
  }

  /** close_file on the open file closes it; one that abandons a delta
      stream ends the edit. */
  lemma CloseFileStep(calls: seq<Effect>, fb: Baton)
    requires Replay(calls).Some? && Replay(calls).value.file == Some(fb) && !Replay(calls).value.ended
    ensures Replay(calls + [CloseFile(fb)]) ==
            Some(Replay(calls).value.(file := None, delta := false, ended := Replay(calls).value.delta))
  {
    ReplayAppend(calls, CloseFile(fb));
  }

  /** A session the editor contract accepts from start to close_edit: the
      root was opened, and every node opened was closed. */
  predicate Complete(calls: seq<Effect>) {
    Replay(calls).Some? &&
    var s := Replay(calls).value;
    s.dirs == [] && s.file.None? && !s.delta && s.ended && s.rooted
  }

  // ---------------------------------------------------------------------
  // Balance: every open has exactly one close
  // ---------------------------------------------------------------------

  predicate OpensDir(c: Effect) {
    c.OpenRoot? || c.OpenDirectory? || c.AddDirectory?
  }

  predicate OpensFile(c: Effect) {
    c.OpenFile? || c.AddFile?
  }

  predicate ClosesDir(c: Effect) {
    c.CloseDirectory?
  }

  predicate ClosesFile(c: Effect) {
    c.CloseFile?
  }

  function Count(calls: seq<Effect>, p: Effect -> bool): nat
    decreases |calls|
  {
    if calls == [] then 0 else Count(DropLast(calls), p) + (if p(Last(calls)) then 1 else 0)
  }

  lemma CountAppend(calls: seq<Effect>, c: Effect, p: Effect -> bool)
    ensures Count(calls + [c], p) == Count(calls, p) + (if p(c) then 1 else 0)
  {
    assert DropLast(calls + [c]) == calls;
  }

  /** One accepted call opens a directory exactly when it pushes one, and
      closes one exactly when it pops one; likewise for the open file. */
  lemma StepCountsOpens(s: Shadow, c: Effect, i: nat)
    requires ReplayStep(s, c, i).Some?
    ensures var s' := ReplayStep(s, c, i).value;
            |s.dirs| + (if OpensDir(c) then 1 else 0) == |s'.dirs| + (if ClosesDir(c) then 1 else 0) &&
            (if s.file.Some? then 1 else 0) + (if OpensFile(c) then 1 else 0) ==
            (if s'.file.Some? then 1 else 0) + (if ClosesFile(c) then 1 else 0)
  {
  }

  /** In any trace the contract accepts, the directories opened so far are
      the ones closed plus the ones still open, and likewise for files. */
  lemma {:induction false} ReplayCountsOpens(calls: seq<Effect>)
    requires Replay(calls).Some?
    ensures Count(calls, OpensDir) == Count(calls, ClosesDir) + |Replay(calls).value.dirs|
    ensures Count(calls, OpensFile) == Count(calls, ClosesFile) + (if Replay(calls).value.file.Some? then 1 else 0)
    decreases |calls|
  {
    if calls != [] {
      var pre := DropLast(calls);
      var c := Last(calls);
      assert calls == pre + [c];
      ReplayAppend(pre, c);
      var s :| Replay(pre) == Some(s) && ReplayStep(s, c, |pre|) == Replay(calls);
      StepCountsOpens(s, c, |pre|);
      ReplayCountsOpens(pre);
      CountAppend(pre, c, OpensDir);
      CountAppend(pre, c, ClosesDir);
      CountAppend(pre, c, OpensFile);
      CountAppend(pre, c, ClosesFile);
    }
  }

  predicate OpensRoot(c: Effect) {
    c.OpenRoot?
  }

  predicate SetsTarget(c: Effect) {
    c.SetTargetRevision?
  }

  /** In any trace the contract accepts, open_root was called once if the
      root is marked opened and never otherwise, and likewise
      set_target_revision; the target revision, if set, was set first. */
  lemma {:induction false} ReplayCountsRoots(calls: seq<Effect>)
    requires Replay(calls).Some?
    ensures Count(calls, OpensRoot) == if Replay(calls).value.rooted then 1 else 0
    ensures Count(calls, SetsTarget) == if Replay(calls).value.targeted then 1 else 0
    ensures forall k :: 0 < k < |calls| && calls[k].SetTargetRevision? ==> Count(calls[..k], OpensRoot) == 0
    decreases |calls|
  {
    if calls != [] {
      var pre := DropLast(calls);
      var c := Last(calls);
      assert calls == pre + [c];
      ReplayAppend(pre, c);
      var s :| Replay(pre) == Some(s) && ReplayStep(s, c, |pre|) == Replay(calls);
      ReplayCountsRoots(pre);
      CountAppend(pre, c, OpensRoot);
      CountAppend(pre, c, SetsTarget);
      forall k | 0 < k < |calls| && calls[k].SetTargetRevision?
        ensures Count(calls[..k], OpensRoot) == 0
      {
        if k == |pre| {
          assert calls[..k] == pre;
        } else {
          assert calls[..k] == pre[..k];
        }
      }
    }
  }

  /** A complete session closes every directory and file it opens, and
      opens the root exactly once. */
  lemma CompleteIsBalanced(calls: seq<Effect>)
    requires Complete(calls)
    ensures Count(calls, OpensDir) == Count(calls, ClosesDir)
    ensures Count(calls, OpensFile) == Count(calls, ClosesFile)
    ensures Count(calls, OpensRoot) == 1
    ensures Count(calls, SetsTarget) <= 1
  {
    ReplayCountsOpens(calls);
    ReplayCountsRoots(calls);
  }

  /** Once the contract rejects a call, no continuation repairs the trace. */
  lemma {:induction false} ReplayRejectionSticks(calls: seq<Effect>, more: seq<Effect>)
    requires Replay(calls).None?
    ensures Replay(calls + more).None?
    decreases |more|
  {
    if more != [] {
      var m := DropLast(more);
      assert calls + more == (calls + m) + [Last(more)];
      ReplayRejectionSticks(calls, m);
      ReplayAppend(calls + m, Last(more));
    } else {
      assert calls + more == calls;
    }
  }

  /** A session the contract accepts and that is not yet ended has made no
      close_edit call. */
  lemma {:induction false} OpenSessionHasNoCloseEdit(calls: seq<Effect>)
    requires Replay(calls).Some? && !Replay(calls).value.ended
    ensures CloseEdit !in calls
    decreases |calls|
  {
    if calls != [] {
      var pre := DropLast(calls);
      var c := Last(calls);
      assert calls == pre + [c];
      ReplayAppend(pre, c);
      var s :| Replay(pre) == Some(s) && ReplayStep(s, c, |pre|) == Replay(calls);
      assert !s.ended;
      OpenSessionHasNoCloseEdit(pre);
      assert c != CloseEdit;
    }
  }

  /** Nothing may follow close_edit. */
  lemma NothingAfterCloseEdit(calls: seq<Effect>, c: Effect)
    requires Complete(calls)
    ensures Replay(calls + [c]).None?
  {
    ReplayAppend(calls, c);
  }
}
