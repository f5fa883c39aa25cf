/** How the DAV access layer turns the properties a server reports for a
    resource into property changes on an editor node: user properties arrive
    in the "svn:custom:" namespace and lose that prefix, Subversion's own
    "svn:" properties pass through except the server-private
    baseline-relative-path, and three DAV: live properties become the
    working copy's entry properties. A server's property set is a hash whose
    iteration order is unspecified; `Enumerate` stands for that order. */
module DavProps {
  import opened SvnTypes
  import opened DeltaEditor

  type PropMap = map<string, string>

  /** Which node a prop_setter_t is bound to: change_dir_prop on a
      directory baton or change_file_prop on a file baton. */
  datatype Target = DirTarget(dir: Baton) | FileTarget(file: Baton)

  function SetProp(t: Target, name: string, value: Option<string>): Effect {
    match t
    case DirTarget(b) => ChangeDirProp(b, name, value)
    case FileTarget(b) => ChangeFileProp(b, name, value)
  }

  /** set_special_wc_prop: the entry property a DAV: live property is stored
      under, or None when the key is not one of the three it knows. */
  function SpecialWcProp(key: string): Option<string> {
    if key == DavVersionName then Some(EntryCommittedRev)
    else if key == DavCreationDate then Some(EntryCommittedDate)
    else if key == DavCreatorDisplayname then Some(EntryLastAuthor)
    else None
  }

  predicate IsEntryProp(name: string) {
    name == EntryCommittedRev || name == EntryCommittedDate || name == EntryLastAuthor
  }

  /** The entry property each DAV: live property is stored under. */
  lemma SpecialWcPropValues()
    ensures SpecialWcProp(DavVersionName) == Some(EntryCommittedRev)
    ensures SpecialWcProp(DavCreationDate) == Some(EntryCommittedDate)
    ensures SpecialWcProp(DavCreatorDisplayname) == Some(EntryLastAuthor)
  {
    assert DavCreationDate[4] != DavVersionName[4];
    assert DavCreatorDisplayname[4] != DavVersionName[4];
    assert |DavCreatorDisplayname| != |DavCreationDate|;
  }

  /** The three DAV: live properties map one-to-one onto the three entry
      properties; any other key leads to no setter call at all. */
  lemma SpecialWcPropIsBijection(key: string, key': string)
    ensures SpecialWcProp(key).Some? <==> key in {DavVersionName, DavCreationDate, DavCreatorDisplayname}
    ensures SpecialWcProp(key).Some? ==> IsEntryProp(SpecialWcProp(key).value)
    ensures SpecialWcProp(key).Some? && SpecialWcProp(key) == SpecialWcProp(key') ==> key == key'
    ensures forall n :: IsEntryProp(n) ==> exists k :: SpecialWcProp(k) == Some(n)
  {
    SpecialWcPropValues();
    forall n | IsEntryProp(n)
      ensures exists k :: SpecialWcProp(k) == Some(n)
    {
      if n == EntryCommittedRev {
        assert SpecialWcProp(DavVersionName) == Some(n);
      } else if n == EntryCommittedDate {
        assert SpecialWcProp(DavCreationDate) == Some(n);
      } else {
        assert SpecialWcProp(DavCreatorDisplayname) == Some(n);
      }
    }
  }

  /** add_props' decision for one server property: the name the node gets
      it under, or None when the property is filtered out. */
  function AddPropName(key: string): Option<string> {
    if HasPrefix(key, CustomPrefix) then Some(key[|CustomPrefix|..])
    else if HasPrefix(key, PropPrefix) then
      (if key[|PropPrefix|..] == "baseline-relative-path" then None else Some(key))
    else SpecialWcProp(key)
  }

  /** How the server names a user property: in the custom namespace. */
  function ServerName(userName: string): string {
    CustomPrefix + userName
  }

  /** A user property survives the trip through the server unchanged in name;
      Subversion's own properties keep their names except the server-private
      one; the three live properties become entry properties; anything else is
      dropped. */
  lemma AddPropNameRecoversNames(userName: string, key: string)
    ensures AddPropName(ServerName(userName)) == Some(userName)
    ensures HasPrefix(key, PropPrefix) && !HasPrefix(key, CustomPrefix) ==>
              (AddPropName(key) == Some(key) <==> key != PropPrefix + "baseline-relative-path")
    ensures !HasPrefix(key, PropPrefix) ==> AddPropName(key) == SpecialWcProp(key)
  {
    var s := ServerName(userName);
    assert s[..|CustomPrefix|] == CustomPrefix;
    assert s[|CustomPrefix|..] == userName;
    if HasPrefix(key, PropPrefix) && !HasPrefix(key, CustomPrefix) {
      assert key == PropPrefix + key[|PropPrefix|..];
    }
  }

  /** The entries of a property hash in its (unspecified) iteration order:
      every entry exactly once. */
  ghost function Enumerate(m: PropMap): (r: seq<(string, string)>)
    ensures |r| == |m|
    ensures forall i :: 0 <= i < |r| ==> r[i].0 in m && m[r[i].0] == r[i].1
    ensures forall i, j :: 0 <= i < j < |r| ==> r[i].0 != r[j].0
    decreases |m|
  {
    if |m| == 0 then []
    else
      var k :| k in m;
      [(k, m[k])] + Enumerate(m - {k})
  }

  lemma {:induction false} EnumerateCovers(m: PropMap, k: string)
    requires k in m
    ensures exists i :: 0 <= i < |Enumerate(m)| && Enumerate(m)[i].0 == k
    decreases |m|
  {
    var k0 :| k0 in m && Enumerate(m) == [(k0, m[k0])] + Enumerate(m - {k0});
    if k != k0 {
      EnumerateCovers(m - {k0}, k);
      var i :| 0 <= i < |Enumerate(m - {k0})| && Enumerate(m - {k0})[i].0 == k;
      assert Enumerate(m)[i + 1] == Enumerate(m - {k0})[i];
    } else {
      assert Enumerate(m)[0].0 == k;
    }
  }

  /** c sets a property with a value on the node t is bound to. */
  predicate IsSetterCall(t: Target, c: Effect) {
    match t
    case DirTarget(b) => c.ChangeDirProp? && c.dir == b && c.value.Some?
    case FileTarget(b) => c.ChangeFileProp? && c.file == b && c.value.Some?
  }

  /** The setter calls add_props makes for a sequence of server properties. */
  function PropCalls(t: Target, ps: seq<(string, string)>): seq<Effect>
    decreases |ps|
  {
    if ps == [] then []
    else
      var rest := PropCalls(t, ps[1..]);
      match AddPropName(ps[0].0)
      case None => rest
      case Some(n) => [SetProp(t, n, Some(ps[0].1))] + rest
  }

  /** add_props: every property of the resource, in hash order, goes to the
      setter under its mapped name; setter errors are ignored. */
  ghost function AddProps(o: Out, t: Target, propset: PropMap): Out {
    Out(o.calls + PropCalls(t, Enumerate(propset)), o.err)
  }

  lemma {:induction false} PropCallsMembers(t: Target, ps: seq<(string, string)>, c: Effect)
    ensures c in PropCalls(t, ps) <==>
            exists i :: 0 <= i < |ps| && AddPropName(ps[i].0).Some? &&
                        c == SetProp(t, AddPropName(ps[i].0).value, Some(ps[i].1))
    decreases |ps|
  {
    if ps != [] {
      PropCallsMembers(t, ps[1..], c);
      if c in PropCalls(t, ps[1..]) {
        var i :| 0 <= i < |ps[1..]| && AddPropName(ps[1..][i].0).Some? &&
                 c == SetProp(t, AddPropName(ps[1..][i].0).value, Some(ps[1..][i].1));
        assert ps[i + 1] == ps[1..][i];
      }
      if exists i :: 0 <= i < |ps| && AddPropName(ps[i].0).Some? &&
                     c == SetProp(t, AddPropName(ps[i].0).value, Some(ps[i].1)) {
        var i :| 0 <= i < |ps| && AddPropName(ps[i].0).Some? &&
                 c == SetProp(t, AddPropName(ps[i].0).value, Some(ps[i].1));
        if i > 0 {
          assert ps[1..][i - 1] == ps[i];
        }
      }
    }
  }

  lemma {:induction false} PropCallsCount(t: Target, ps: seq<(string, string)>)
    ensures |PropCalls(t, ps)| <= |ps|
    ensures forall c :: c in PropCalls(t, ps) ==> IsSetterCall(t, c)
    decreases |ps|
  {
    if ps != [] {
      PropCallsCount(t, ps[1..]);
    }
  }

  /** add_props sets every mapped property of the resource with its value, on
      the bound node, and makes no other call: each call comes from one
      property of the set, under that property's mapped name. */
  lemma AddPropsSetsMappedProperties(o: Out, t: Target, propset: PropMap)
    ensures AddProps(o, t, propset).err == o.err
    ensures |AddProps(o, t, propset).calls| <= |o.calls| + |propset|
    ensures forall k :: k in propset && AddPropName(k).Some? ==>
              SetProp(t, AddPropName(k).value, Some(propset[k])) in AddProps(o, t, propset).calls[|o.calls|..]
    ensures forall c :: c in AddProps(o, t, propset).calls[|o.calls|..] ==>
              exists k :: k in propset && AddPropName(k).Some? && c == SetProp(t, AddPropName(k).value, Some(propset[k]))
  {
    var ps := Enumerate(propset);
    var r := AddProps(o, t, propset);
    assert r.calls[|o.calls|..] == PropCalls(t, ps);
    PropCallsCount(t, ps);
    forall k | k in propset && AddPropName(k).Some?
      ensures SetProp(t, AddPropName(k).value, Some(propset[k])) in r.calls[|o.calls|..]
    {
      EnumerateCovers(propset, k);
      var i :| 0 <= i < |ps| && ps[i].0 == k;
      PropCallsMembers(t, ps, SetProp(t, AddPropName(k).value, Some(propset[k])));
    }
    forall c | c in r.calls[|o.calls|..]
      ensures exists k :: k in propset && AddPropName(k).Some? && c == SetProp(t, AddPropName(k).value, Some(propset[k]))
    {
      PropCallsMembers(t, ps, c);
      var i :| 0 <= i < |ps| && AddPropName(ps[i].0).Some? &&
               c == SetProp(t, AddPropName(ps[i].0).value, Some(ps[i].1));
      assert ps[i].0 in propset;
    }
  }

  /** A target the contract lets properties be set on. */
  predicate TargetOk(s: Shadow, t: Target) {
    match t
    case DirTarget(b) => AtTop(s, b)
    case FileTarget(f) => s.file == Some(f)
  }

  /** Setting properties on a node the contract lets them be set on keeps
      the contract's state. */
  lemma {:induction false} PropCallsKeepContract(calls: seq<Effect>, t: Target, ps: seq<(string, string)>, s: Shadow)
    requires Replay(calls) == Some(s) && TargetOk(s, t) && !s.ended
    ensures Replay(calls + PropCalls(t, ps)) == Some(s)
    decreases |ps|
  {
    if ps == [] {
      assert calls + PropCalls(t, ps) == calls;
    } else {
      var rest := PropCalls(t, ps[1..]);
      match AddPropName(ps[0].0)
      case None =>
        PropCallsKeepContract(calls, t, ps[1..], s);
      case Some(n) =>
        var c := SetProp(t, n, Some(ps[0].1));
        Append1(calls, c, s);
        PropCallsKeepContract(calls + [c], t, ps[1..], s);
        assert calls + PropCalls(t, ps) == (calls + [c]) + rest;
    }
  }

  /** store_vsn_url: when the resource has a DAV:checked-in property, record
      it on the node as the version-URL working-copy property. */
  function StoreVsnUrl(ed: Editor, o: Out, t: Target, propset: PropMap): Out {
    if DavCheckedIn in propset then Invoke(ed, o, SetProp(t, WcVersionUrl, Some(propset[DavCheckedIn])))
    else o
  }
}
