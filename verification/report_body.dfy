/** The body of the update REPORT request the DAV reporter builds while the
    working copy describes itself: make_reporter writes the header elements,
    each set_path adds an entry element, each delete_path a missing element,
    and finish_report closes the document. Paths are XML-escaped by
    svn_xml_escape_nts, which is not part of this model: escaping is any
    function the caller supplies.

    The partner of the builder is `DecodeBody`, a reader for exactly the
    elements the builder writes, and the round-trip theorem
    `BodyRoundTrip`: a server reading the body back recovers the request
    and every reported path and revision. The round trip needs every piece
    of character data to be escaped; the update-target is written without
    escaping (`HeaderItemsAsWritten`), and `UnescapedTargetBreaksBody`
    exhibits a target that makes the body unreadable. */
module ReportBody {
  import opened SvnTypes

  /** DEBUG_CR from ra_dav.h, taken to be a newline. */
  const DebugCr: string := "\n"

  /** report_head and report_tail; the report's namespace is SVN_XML_NAMESPACE. */
  const ReportHead: string := "<S:update-report xmlns:S=\"" + PropPrefix + "\">" + DebugCr
  const ReportTail: string := "</S:update-report>" + DebugCr

  /** What make_reporter is asked for: the revision to update to (an invalid
      one means the latest), the optional update target, the optional
      switch destination, and whether the update recurses. */
  datatype ReportRequest = ReportRequest(revision: int, target: Option<string>, dstPath: Option<string>, recurse: bool)

  /** One call of the reporter. */
  datatype ReportOp = SetPath(path: string, rev: int) | DeletePath(path: string)

  /** The elements the body is made of, with their character data as it
      appears in the body. */
  datatype Item =
    | TargetRevisionItem(text: string)
    | UpdateTargetItem(text: string)
    | DstPathItem(text: string)
    | RecursiveItem(text: string)
    | EntryItem(rev: string, text: string)
    | MissingItem(text: string)

  const TargetRevisionOpen: string := "<S:target-revision>"
  const TargetRevisionClose: string := "</S:target-revision>"
  const UpdateTargetOpen: string := "<S:update-target>"
  const UpdateTargetClose: string := "</S:update-target>"
  const DstPathOpen: string := "<S:dst-path>"
  const DstPathClose: string := "</S:dst-path>"
  const RecursiveOpen: string := "<S:recursive>"
  const RecursiveClose: string := "</S:recursive>"
  const EntryOpen: string := "<S:entry rev=\""
  const EntryMid: string := "\">"
  const EntryClose: string := "</S:entry>" + DebugCr
  const MissingOpen: string := "<S:missing>"
  const MissingClose: string := "</S:missing>" + DebugCr

  function ItemText(i: Item): string {
    match i
    case TargetRevisionItem(t) => TargetRevisionOpen + t + TargetRevisionClose
    case UpdateTargetItem(t) => UpdateTargetOpen + t + UpdateTargetClose
    case DstPathItem(t) => DstPathOpen + t + DstPathClose
    case RecursiveItem(t) => RecursiveOpen + t + RecursiveClose
    case EntryItem(r, t) => EntryOpen + r + EntryMid + t + EntryClose
    case MissingItem(t) => MissingOpen + t + MissingClose
  }

  function ItemsText(items: seq<Item>): string {
    Join(ItemText, items)
  }

  /** The texts of xs laid end to end. */
  function Join<T>(text: T -> string, xs: seq<T>): string
    decreases |xs|
  {
    if xs == [] then "" else text(xs[0]) + Join(text, xs[1..])
  }

  // ---------------------------------------------------------------------
  // The builder
  // ---------------------------------------------------------------------

  /** make_reporter's optional header elements, one function per element:
      the target revision only when it is valid, the escaped switch
      destination only when there is one, and the non-recursive flag only
      when the update does not recurse. */
  function RevPart(req: ReportRequest): seq<Item> {
    if IsValidRevnum(req.revision) then [TargetRevisionItem(RevToString(req.revision))] else []
  }

  function TargetPart(req: ReportRequest, esc: string -> string): seq<Item> {
    match req.target case None => [] case Some(t) => [UpdateTargetItem(esc(t))]
  }

  /** The update target as make_reporter writes it: verbatim. */
  function TargetPartAsWritten(req: ReportRequest): seq<Item> {
    match req.target case None => [] case Some(t) => [UpdateTargetItem(t)]
  }

  function DstPart(req: ReportRequest, esc: string -> string): seq<Item> {
    match req.dstPath case None => [] case Some(d) => [DstPathItem(esc(d))]
  }

  function RecursivePart(req: ReportRequest): seq<Item> {
    if !req.recurse then [RecursiveItem("no")] else []
  }

  /** The elements make_reporter writes after report_head, as the code is
      written. */
  function HeaderItemsAsWritten(req: ReportRequest, esc: string -> string): seq<Item> {
    RevPart(req) + TargetPartAsWritten(req) + DstPart(req, esc) + RecursivePart(req)
  }

  /** The header with the update target escaped like every other piece of
      character data. */
  function HeaderItems(req: ReportRequest, esc: string -> string): seq<Item> {
    RevPart(req) + TargetPart(req, esc) + DstPart(req, esc) + RecursivePart(req)
  }

  /** reporter_set_path and reporter_delete_path: the element each appends. */
  function OpItem(op: ReportOp, esc: string -> string): Item {
    match op
    case SetPath(p, r) => EntryItem(RevToString(r), esc(p))
    case DeletePath(p) => MissingItem(esc(p))
  }

  function OpItems(ops: seq<ReportOp>, esc: string -> string): (r: seq<Item>)
    ensures |r| == |ops|
    ensures forall k :: 0 <= k < |ops| ==> r[k] == OpItem(ops[k], esc)
    decreases |ops|
  {
    if ops == [] then [] else [OpItem(ops[0], esc)] + OpItems(ops[1..], esc)
  }

  /** The whole body a reporter session writes: report_head, the header
      elements, one element per reporter call in call order, report_tail. */
  function Body(req: ReportRequest, ops: seq<ReportOp>, esc: string -> string): string {
    ReportHead + ItemsText(HeaderItems(req, esc) + OpItems(ops, esc)) + ReportTail
  }

  function BodyAsWritten(req: ReportRequest, ops: seq<ReportOp>, esc: string -> string): string {
    ReportHead + ItemsText(HeaderItemsAsWritten(req, esc) + OpItems(ops, esc)) + ReportTail
  }

  lemma ItemsTextCons(items: seq<Item>)
    requires items != []
    ensures ItemsText(items) == ItemText(items[0]) + ItemsText(items[1..])
  {
  }

  lemma ItemsTextSingle(i: Item)
    ensures ItemsText([i]) == ItemText(i)
  {
    ItemsTextCons([i]);
    assert [i][1..] == [];
  }

  lemma AppendAssoc<T>(a: seq<T>, b: seq<T>, c: seq<T>)
    ensures (a + b) + c == a + (b + c)
  {
  }

  // ---------------------------------------------------------------------
  // Reading a body back
  // ---------------------------------------------------------------------

  /** The text of s before the first c, and the rest from c on. */
  function TakeUntil(s: string, c: char): (r: (string, string))
    ensures |r.1| <= |s|
    decreases |s|
  {
    if |s| == 0 then ("", "")
    else if s[0] == c then ("", s)
    else var t := TakeUntil(s[1..], c); ([s[0]] + t.0, t.1)
  }

  lemma {:induction false} TakeUntilSplit(a: string, b: string, c: char)
    requires c !in a && |b| > 0 && b[0] == c
    ensures TakeUntil(a + b, c) == (a, b)
    decreases |a|
  {
    if |a| > 0 {
      assert a[0] in a && (a + b)[0] == a[0] != c;
      assert (a + b)[1..] == a[1..] + b;
      TakeUntilSplit(a[1..], b, c);
      assert [a[0]] + a[1..] == a;
    } else {
      assert a + b == b;
    }
  }

  /** An element open + text + close, where the text runs up to the next '<'. */
  function ReadElem(s: string, open: string, close: string): (r: Option<(string, string)>)
    requires |open| > 0
    ensures r.Some? ==> |r.value.1| < |s|
  {
    if !HasPrefix(s, open) then None
    else
      var t := TakeUntil(s[|open|..], '<');
      if HasPrefix(t.1, close) then Some((t.0, t.1[|close|..])) else None
  }

  /** Tags an element's text can be read between. */
  predicate ElemTags(open: string, close: string) {
    |open| > 0 && |close| > 0 && close[0] == '<'
  }

  lemma AllElemTags()
    ensures ElemTags(TargetRevisionOpen, TargetRevisionClose) && ElemTags(UpdateTargetOpen, UpdateTargetClose)
    ensures ElemTags(DstPathOpen, DstPathClose) && ElemTags(RecursiveOpen, RecursiveClose)
    ensures ElemTags(MissingOpen, MissingClose)
  {
  }

  lemma ReadElemRoundTrip(open: string, text: string, close: string, rest: string)
    requires ElemTags(open, close) && '<' !in text
    ensures ReadElem(open + text + close + rest, open, close) == Some((text, rest))
  {
    var s := open + text + close + rest;
    assert s[..|open|] == open;
    assert s[|open|..] == text + (close + rest);
    TakeUntilSplit(text, close + rest, '<');
    assert (close + rest)[..|close|] == close;
    assert (close + rest)[|close|..] == rest;
  }

  /** An entry element: its rev attribute runs up to the closing quote. */
  function ReadEntry(s: string): (r: Option<(string, string, string)>)
    ensures r.Some? ==> |r.value.2| < |s|
  {
    if !HasPrefix(s, EntryOpen) then None
    else
      var a := TakeUntil(s[|EntryOpen|..], '"');
      match ReadElem(a.1, EntryMid, EntryClose)
      case None => None
      case Some((t, rest)) => Some((a.0, t, rest))
  }

  lemma ReadEntryRoundTrip(rev: string, text: string, rest: string)
    requires '"' !in rev && '<' !in text
    ensures ReadEntry(ItemText(EntryItem(rev, text)) + rest) == Some((rev, text, rest))
  {
    var s := ItemText(EntryItem(rev, text)) + rest;
    var tail := EntryMid + text + EntryClose + rest;
    assert s == EntryOpen + rev + tail;
    assert s[..|EntryOpen|] == EntryOpen;
    assert s[|EntryOpen|..] == rev + tail;
    TakeUntilSplit(rev, tail, '"');
    ReadElemRoundTrip(EntryMid, text, EntryClose, rest);
  }

  /** The elements between report_head and report_tail, each recognised by
      its opening tag; anything else makes the body unreadable. */
  function ReadItems(s: string): Option<seq<Item>>
    decreases |s|
  {
    if s == ReportTail then Some([])
    else if HasPrefix(s, TargetRevisionOpen) then ReadMore(ReadElem(s, TargetRevisionOpen, TargetRevisionClose), s, 0)
    else if HasPrefix(s, UpdateTargetOpen) then ReadMore(ReadElem(s, UpdateTargetOpen, UpdateTargetClose), s, 1)
    else if HasPrefix(s, DstPathOpen) then ReadMore(ReadElem(s, DstPathOpen, DstPathClose), s, 2)
    else if HasPrefix(s, RecursiveOpen) then ReadMore(ReadElem(s, RecursiveOpen, RecursiveClose), s, 3)
    else if HasPrefix(s, MissingOpen) then ReadMore(ReadElem(s, MissingOpen, MissingClose), s, 4)
    else if HasPrefix(s, EntryOpen) then
      match ReadEntry(s)
      case None => None
      case Some((r, t, rest)) =>
        match ReadItems(rest)
        case None => None
        case Some(more) => Some([EntryItem(r, t)] + more)
    else None
  }

  /** The element kind an opening tag stands for, with the rest read on. */
  function ReadMore(e: Option<(string, string)>, s: string, kind: nat): Option<seq<Item>>
    requires e.Some? ==> |e.value.1| < |s|
    decreases |s|, 0
  {
    match e
    case None => None
    case Some((t, rest)) =>
      match ReadItems(rest)
      case None => None
      case Some(more) =>
        var i := if kind == 0 then TargetRevisionItem(t)
                 else if kind == 1 then UpdateTargetItem(t)
                 else if kind == 2 then DstPathItem(t)
                 else if kind == 3 then RecursiveItem(t)
                 else MissingItem(t);
        Some([i] + more)
  }

  /** The character data of an item contains no markup. */
  predicate ItemOk(i: Item) {
    '<' !in i.text && (i.EntryItem? ==> '"' !in i.rev)
  }

  /** The tags are told apart by their fourth character. */
  lemma TagsDiffer(i: Item, rest: string)
    ensures var s := ItemText(i) + rest;
            s != ReportTail &&
            (HasPrefix(s, TargetRevisionOpen) <==> i.TargetRevisionItem?) &&
            (HasPrefix(s, UpdateTargetOpen) <==> i.UpdateTargetItem?) &&
            (HasPrefix(s, DstPathOpen) <==> i.DstPathItem?) &&
            (HasPrefix(s, RecursiveOpen) <==> i.RecursiveItem?) &&
            (HasPrefix(s, MissingOpen) <==> i.MissingItem?) &&
            (HasPrefix(s, EntryOpen) <==> i.EntryItem?)
  {
    var s := ItemText(i) + rest;
    assert s[1] == 'S' && s[3] == ItemText(i)[3];
    assert ReportTail[1] == '/';
    assert TargetRevisionOpen[3] == 't' && UpdateTargetOpen[3] == 'u' && DstPathOpen[3] == 'd';
    assert RecursiveOpen[3] == 'r' && MissingOpen[3] == 'm' && EntryOpen[3] == 'e';
    match i
    case TargetRevisionItem(t) => assert s[..|TargetRevisionOpen|] == TargetRevisionOpen;
    case UpdateTargetItem(t) => assert s[..|UpdateTargetOpen|] == UpdateTargetOpen;
    case DstPathItem(t) => assert s[..|DstPathOpen|] == DstPathOpen;
    case RecursiveItem(t) => assert s[..|RecursiveOpen|] == RecursiveOpen;
    case MissingItem(t) => assert s[..|MissingOpen|] == MissingOpen;
    case EntryItem(r, t) => assert s[..|EntryOpen|] == EntryOpen;
  }

  lemma ReadItemsStep(i: Item, rest: string)
    requires ItemOk(i)
    ensures ReadItems(ItemText(i) + rest) ==
            (match ReadItems(rest) case None => None case Some(more) => Some([i] + more))
  {
    if i.EntryItem? {
      ReadEntryStep(i, rest);
    } else {
      ReadTextStep(i, rest);
    }
  }

  lemma ReadEntryStep(i: Item, rest: string)
    requires ItemOk(i) && i.EntryItem?
    ensures ReadItems(ItemText(i) + rest) ==
            (match ReadItems(rest) case None => None case Some(more) => Some([i] + more))
  {
    TagsDiffer(i, rest);
    ReadEntryRoundTrip(i.rev, i.text, rest);
  }

  lemma ReadTextStep(i: Item, rest: string)
    requires ItemOk(i) && !i.EntryItem?
    ensures ReadItems(ItemText(i) + rest) ==
            (match ReadItems(rest) case None => None case Some(more) => Some([i] + more))
  {
    TagsDiffer(i, rest);
    AllElemTags();
    match i
    case TargetRevisionItem(t) => ReadElemRoundTrip(TargetRevisionOpen, t, TargetRevisionClose, rest);
    case UpdateTargetItem(t) => ReadElemRoundTrip(UpdateTargetOpen, t, UpdateTargetClose, rest);
    case DstPathItem(t) => ReadElemRoundTrip(DstPathOpen, t, DstPathClose, rest);
    case RecursiveItem(t) => ReadElemRoundTrip(RecursiveOpen, t, RecursiveClose, rest);
    case MissingItem(t) => ReadElemRoundTrip(MissingOpen, t, MissingClose, rest);
  }

  /** Elements without markup in their data are read back one for one. */
  lemma {:induction false} ReadItemsRoundTrip(items: seq<Item>)
    requires forall k :: 0 <= k < |items| ==> ItemOk(items[k])
    ensures ReadItems(ItemsText(items) + ReportTail) == Some(items)
    decreases |items|
  {
    if items == [] {
      ReadTailOnly();
    } else {
      assert forall k :: 0 <= k < |items[1..]| ==> ItemOk(items[1..][k]) by {
        forall k | 0 <= k < |items[1..]|
          ensures ItemOk(items[1..][k])
        {
          assert items[1..][k] == items[k + 1];
        }
      }
      ReadItemsRoundTrip(items[1..]);
      ReadFirst(items);
    }
  }

  lemma ReadFirst(items: seq<Item>)
    requires items != [] && ItemOk(items[0])
    requires ReadItems(ItemsText(items[1..]) + ReportTail) == Some(items[1..])
    ensures ReadItems(ItemsText(items) + ReportTail) == Some(items)
  {
    ItemsTextCons(items);
    ReadOneMore(items[0], items[1..], ItemsText(items[1..]));
    assert [items[0]] + items[1..] == items;
  }

  /** The tail alone reads as no elements. */
  lemma ReadTailOnly()
    ensures ReadItems(ItemsText([]) + ReportTail) == Some([])
  {
    assert ItemsText([]) + ReportTail == ReportTail;
  }

  lemma ReadOneMore(i: Item, more: seq<Item>, t: string)
    requires ItemOk(i) && ReadItems(t + ReportTail) == Some(more)
    ensures ReadItems(ItemText(i) + t + ReportTail) == Some([i] + more)
  {
    AppendAssoc(ItemText(i), t, ReportTail);
    ReadItemsStep(i, t + ReportTail);
  }

  /** The position of an element kind in the body's order; the reporter
      calls' elements come last. */
  function Rank(i: Item): nat {
    match i
    case TargetRevisionItem(_) => 0
    case UpdateTargetItem(_) => 1
    case DstPathItem(_) => 2
    case RecursiveItem(_) => 3
    case _ => 4
  }

  predicate StartsAtRank(items: seq<Item>, k: nat) {
    |items| > 0 ==> Rank(items[0]) >= k
  }

  function ReadRev(items: seq<Item>): (int, seq<Item>) {
    if |items| > 0 && items[0].TargetRevisionItem? then (StrToRev(items[0].text), items[1..]) else (InvalidRevnum, items)
  }

  function ReadTarget(items: seq<Item>, unesc: string -> string): (Option<string>, seq<Item>) {
    if |items| > 0 && items[0].UpdateTargetItem? then (Some(unesc(items[0].text)), items[1..]) else (None, items)
  }

  function ReadDst(items: seq<Item>, unesc: string -> string): (Option<string>, seq<Item>) {
    if |items| > 0 && items[0].DstPathItem? then (Some(unesc(items[0].text)), items[1..]) else (None, items)
  }

  function ReadRecursive(items: seq<Item>): (bool, seq<Item>) {
    if |items| > 0 && items[0].RecursiveItem? then (items[0].text != "no", items[1..]) else (true, items)
  }

  /** How the server reads the elements: the optional header elements in
      make_reporter's order, then one reporter call per element. */
  function Interpret(items: seq<Item>, unesc: string -> string): Option<(ReportRequest, seq<ReportOp>)> {
    var a := ReadRev(items);
    var b := ReadTarget(a.1, unesc);
    var c := ReadDst(b.1, unesc);
    var d := ReadRecursive(c.1);
    match InterpretOps(d.1, unesc)
    case None => None
    case Some(ops) => Some((ReportRequest(a.0, b.0, c.0, d.0), ops))
  }

  function InterpretOps(items: seq<Item>, unesc: string -> string): Option<seq<ReportOp>>
    decreases |items|
  {
    if items == [] then Some([])
    else match InterpretOps(items[1..], unesc)
      case None => None
      case Some(more) =>
        match items[0]
        case EntryItem(r, t) => Some([SetPath(unesc(t), StrToRev(r))] + more)
        case MissingItem(t) => Some([DeletePath(unesc(t))] + more)
        case _ => None
  }

  function DecodeBody(s: string, unesc: string -> string): Option<(ReportRequest, seq<ReportOp>)> {
    if !HasPrefix(s, ReportHead) then None
    else match ReadItems(s[|ReportHead|..])
      case None => None
      case Some(items) => Interpret(items, unesc)
  }

  /** An invalid revision reads back as the canonical invalid revision. */
  function Normalize(req: ReportRequest): ReportRequest {
    if IsValidRevnum(req.revision) then req else req.(revision := InvalidRevnum)
  }

  /** svn_xml_escape_nts's promise as the round trip needs it: escaped text
      holds no '<', and unescaping restores the original. */
  ghost predicate EscapeOk(esc: string -> string, unesc: string -> string) {
    forall p :: '<' !in esc(p) && unesc(esc(p)) == p
  }

  lemma RevTextIsPlain(r: int)
    ensures '"' !in RevToString(r) && '<' !in RevToString(r)
  {
    var d := NatToDecimal(if r < 0 then -r else r);
    assert forall k :: 0 <= k < |d| ==> IsDigit(d[k]);
    if r < 0 {
      assert RevToString(r) == "-" + d;
    }
  }

  lemma {:induction false} InterpretOpsRoundTrip(ops: seq<ReportOp>, esc: string -> string, unesc: string -> string)
    requires EscapeOk(esc, unesc)
    ensures InterpretOps(OpItems(ops, esc), unesc) == Some(ops)
    decreases |ops|
  {
    if ops != [] {
      InterpretOpsRoundTrip(ops[1..], esc, unesc);
      assert OpItems(ops, esc)[1..] == OpItems(ops[1..], esc);
      if ops[0].SetPath? {
        RevToStringRoundTrip(ops[0].rev);
      }
      assert [ops[0]] + ops[1..] == ops;
    }
  }

  lemma OpItemsOk(ops: seq<ReportOp>, esc: string -> string, unesc: string -> string)
    requires EscapeOk(esc, unesc)
    ensures forall k :: 0 <= k < |ops| ==> ItemOk(OpItems(ops, esc)[k])
  {
    forall k | 0 <= k < |ops|
      ensures ItemOk(OpItems(ops, esc)[k])
    {
      if ops[k].SetPath? {
        RevTextIsPlain(ops[k].rev);
      }
    }
  }

  /** A body made of elements without markup in their data reads back as
      those elements. */
  lemma DecodeItems(items: seq<Item>, unesc: string -> string)
    requires forall k :: 0 <= k < |items| ==> ItemOk(items[k])
    ensures DecodeBody(ReportHead + ItemsText(items) + ReportTail, unesc) == Interpret(items, unesc)
  {
    ReadItemsRoundTrip(items);
    var s := ReportHead + ItemsText(items) + ReportTail;
    AppendAssoc(ReportHead, ItemsText(items), ReportTail);
    assert s[..|ReportHead|] == ReportHead;
    assert s[|ReportHead|..] == ItemsText(items) + ReportTail;
  }

  lemma HeaderItemsOk(req: ReportRequest, esc: string -> string, unesc: string -> string)
    requires EscapeOk(esc, unesc)
    ensures forall k :: 0 <= k < |HeaderItems(req, esc)| ==> ItemOk(HeaderItems(req, esc)[k])
  {
    if IsValidRevnum(req.revision) {
      RevTextIsPlain(req.revision);
    }
  }

  /** The server reading a reporter session's body recovers the request
      (an invalid revision as "latest") and every reported path and
      revision, in call order. */
  lemma BodyRoundTrip(req: ReportRequest, ops: seq<ReportOp>, esc: string -> string, unesc: string -> string)
    requires EscapeOk(esc, unesc)
    ensures DecodeBody(Body(req, ops, esc), unesc) == Some((Normalize(req), ops))
  {
    var hs := HeaderItems(req, esc);
    var os := OpItems(ops, esc);
    OpItemsOk(ops, esc, unesc);
    HeaderItemsOk(req, esc, unesc);
    assert forall k :: 0 <= k < |hs + os| ==> ItemOk((hs + os)[k]);
    DecodeItems(hs + os, unesc);
    InterpretOpsRoundTrip(ops, esc, unesc);
    HeaderInterpretation(req, esc, unesc, os);
  }

  lemma ReadRevPart(req: ReportRequest, rest: seq<Item>)
    requires StartsAtRank(rest, 1)
    ensures ReadRev(RevPart(req) + rest) == (Normalize(req).revision, rest)
  {
    if IsValidRevnum(req.revision) {
      ReadValidRev(req.revision, rest);
    } else {
      assert RevPart(req) + rest == rest;
    }
  }

  lemma ReadValidRev(r: int, rest: seq<Item>)
    ensures ReadRev([TargetRevisionItem(RevToString(r))] + rest) == (r, rest)
  {
    var items := [TargetRevisionItem(RevToString(r))] + rest;
    assert items[0].text == RevToString(r) && items[1..] == rest;
    RevToStringRoundTrip(r);
  }

  lemma ReadTargetPart(req: ReportRequest, esc: string -> string, unesc: string -> string, rest: seq<Item>)
    requires EscapeOk(esc, unesc) && StartsAtRank(rest, 2)
    ensures ReadTarget(TargetPart(req, esc) + rest, unesc) == (req.target, rest)
    ensures StartsAtRank(TargetPart(req, esc) + rest, 1)
  {
    if req.target.Some? {
      assert (TargetPart(req, esc) + rest)[1..] == rest;
    } else {
      assert TargetPart(req, esc) + rest == rest;
    }
  }

  lemma ReadDstPart(req: ReportRequest, esc: string -> string, unesc: string -> string, rest: seq<Item>)
    requires EscapeOk(esc, unesc) && StartsAtRank(rest, 3)
    ensures ReadDst(DstPart(req, esc) + rest, unesc) == (req.dstPath, rest)
    ensures StartsAtRank(DstPart(req, esc) + rest, 2)
  {
    if req.dstPath.Some? {
      assert (DstPart(req, esc) + rest)[1..] == rest;
    } else {
      assert DstPart(req, esc) + rest == rest;
    }
  }

  lemma ReadRecursivePart(req: ReportRequest, rest: seq<Item>)
    requires StartsAtRank(rest, 4)
    ensures ReadRecursive(RecursivePart(req) + rest) == (req.recurse, rest)
    ensures StartsAtRank(RecursivePart(req) + rest, 3)
  {
    if !req.recurse {
      assert (RecursivePart(req) + rest)[1..] == rest;
    } else {
      assert RecursivePart(req) + rest == rest;
    }
  }

  lemma HeaderItemsSplit(req: ReportRequest, esc: string -> string, tail: seq<Item>)
    ensures HeaderItems(req, esc) + tail ==
            RevPart(req) + (TargetPart(req, esc) + (DstPart(req, esc) + (RecursivePart(req) + tail)))
  {
    var a, b, c, d := RevPart(req), TargetPart(req, esc), DstPart(req, esc), RecursivePart(req);
    AppendAssoc(a + b + c, d, tail);
    AppendAssoc(a + b, c, d + tail);
    AppendAssoc(a, b, c + (d + tail));
  }

  /** The header elements read back as the request they were written for. */
  lemma HeaderInterpretation(req: ReportRequest, esc: string -> string, unesc: string -> string, tail: seq<Item>)
    requires EscapeOk(esc, unesc)
    requires StartsAtRank(tail, 4)
    ensures var r := Interpret(HeaderItems(req, esc) + tail, unesc);
            InterpretOps(tail, unesc).Some? ==>
              r == Some((Normalize(req), InterpretOps(tail, unesc).value))
  {
    var p4 := RecursivePart(req) + tail;
    var p3 := DstPart(req, esc) + p4;
    var p2 := TargetPart(req, esc) + p3;
    HeaderItemsSplit(req, esc, tail);
    ReadRecursivePart(req, tail);
    ReadDstPart(req, esc, unesc, p4);
    ReadTargetPart(req, esc, unesc, p3);
    ReadRevPart(req, p2);
  }

  /** The header as written puts the update target into the body verbatim:
      a target holding '<' leaves a body no reader of the report's elements
      accepts, whatever the escaping function; `BodyRoundTrip` shows the
      escaped target reads back. */
  lemma UnescapedTargetBreaksBody(esc: string -> string, unesc: string -> string)
    ensures DecodeBody(BodyAsWritten(ReportRequest(InvalidRevnum, Some("<"), None, true), [], esc), unesc).None?
  {
    var req := ReportRequest(InvalidRevnum, Some("<"), None, true);
    var s := BodyAsWritten(req, [], esc);
    var rest := UpdateTargetOpen + "<" + UpdateTargetClose + ReportTail;
    BareTargetBody(esc);
    assert s[..|ReportHead|] == ReportHead;
    assert s[|ReportHead|..] == rest;
    BareTargetUnreadable();
  }

  lemma BareTargetBody(esc: string -> string)
    ensures BodyAsWritten(ReportRequest(InvalidRevnum, Some("<"), None, true), [], esc) ==
            ReportHead + (UpdateTargetOpen + "<" + UpdateTargetClose + ReportTail)
  {
    var req := ReportRequest(InvalidRevnum, Some("<"), None, true);
    assert HeaderItemsAsWritten(req, esc) + OpItems([], esc) == [UpdateTargetItem("<")];
    ItemsTextSingle(UpdateTargetItem("<"));
  }

  /** An update-target element whose text is a bare '<' does not read. */
  lemma BareTargetUnreadable()
    ensures ReadItems(UpdateTargetOpen + "<" + UpdateTargetClose + ReportTail).None?
  {
    var rest := UpdateTargetOpen + "<" + UpdateTargetClose + ReportTail;
    assert rest[1] == 'S' != ReportTail[1];
    assert rest[3] == 'u' != TargetRevisionOpen[3];
    assert rest[..|UpdateTargetOpen|] == UpdateTargetOpen;
    var after := rest[|UpdateTargetOpen|..];
    assert after == "<" + UpdateTargetClose + ReportTail;
    assert TakeUntil(after, '<') == ("", after);
    assert after[1] == '<' != UpdateTargetClose[1];
    assert ReadElem(rest, UpdateTargetOpen, UpdateTargetClose).None?;
  }
}
