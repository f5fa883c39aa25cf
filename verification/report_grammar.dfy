/** The vocabulary and grammar of the update report: which (namespace,
    name) pairs the report parser knows (report_elements), which child each
    element admits (validate_element), and how an attribute is looked up in
    a start tag's attribute list (get_attr). */
module ReportGrammar {
  import opened SvnTypes

  /** The element ids of report_elements, plus the parser's pseudo-element
      for the document root and the id of every element the table does not
      name. */
  datatype Elem =
    | Root
    | UpdateReport | TargetRevision
    | OpenDirectory | AddDirectory | OpenFile | AddFile
    | DeleteEntry | FetchProps | RemoveProp | FetchFile | Prop
    | VersionName | CreationDate | CreatorDisplayname
    | CheckedIn | Href
    | Unknown

  /** NE_XML_VALID, NE_XML_INVALID, NE_XML_DECLINE */
  datatype Validity = Valid | Invalid | Decline

  /** report_elements: the element a (namespace, name) pair names. The
      legacy "replace-directory" and "replace-file" name the same elements as
      "open-directory" and "open-file". */
  function Lookup(ns: string, name: string): Elem {
    if ns == PropPrefix then
      if name == "update-report" then UpdateReport
      else if name == "target-revision" then TargetRevision
      else if name == "open-directory" then OpenDirectory
      else if name == "replace-directory" then OpenDirectory
      else if name == "add-directory" then AddDirectory
      else if name == "open-file" then OpenFile
      else if name == "replace-file" then OpenFile
      else if name == "add-file" then AddFile
      else if name == "delete-entry" then DeleteEntry
      else if name == "fetch-props" then FetchProps
      else if name == "remove-prop" then RemoveProp
      else if name == "fetch-file" then FetchFile
      else if name == "prop" then Prop
      else Unknown
    else if ns == DavNamespace then
      if name == "version-name" then VersionName
      else if name == "creationdate" then CreationDate
      else if name == "creator-displayname" then CreatorDisplayname
      else if name == "checked-in" then CheckedIn
      else if name == "href" then Href
      else Unknown
    else Unknown
  }

  /** The current name of each element the table knows. */
  function NameOf(e: Elem): (string, string)
    requires e != Root && e != Unknown
  {
    match e
    case UpdateReport => (PropPrefix, "update-report")
    case TargetRevision => (PropPrefix, "target-revision")
    case OpenDirectory => (PropPrefix, "open-directory")
    case AddDirectory => (PropPrefix, "add-directory")
    case OpenFile => (PropPrefix, "open-file")
    case AddFile => (PropPrefix, "add-file")
    case DeleteEntry => (PropPrefix, "delete-entry")
    case FetchProps => (PropPrefix, "fetch-props")
    case RemoveProp => (PropPrefix, "remove-prop")
    case FetchFile => (PropPrefix, "fetch-file")
    case Prop => (PropPrefix, "prop")
    case VersionName => (DavNamespace, "version-name")
    case CreationDate => (DavNamespace, "creationdate")
    case CreatorDisplayname => (DavNamespace, "creator-displayname")
    case CheckedIn => (DavNamespace, "checked-in")
    case Href => (DavNamespace, "href")
  }

  /** The legacy name some servers still send, for the two elements that
      have one. */
  function LegacyNameOf(e: Elem): Option<(string, string)> {
    if e == OpenDirectory then Some((PropPrefix, "replace-directory"))
    else if e == OpenFile then Some((PropPrefix, "replace-file"))
    else None
  }

  /** Each element is named by its current name and, for open-directory and
      open-file, by its legacy name, and by nothing else. */
  lemma LookupNamesExactly(ns: string, name: string, e: Elem)
    requires e != Root && e != Unknown
    ensures Lookup(ns, name) == e <==>
            (ns, name) == NameOf(e) || (LegacyNameOf(e).Some? && (ns, name) == LegacyNameOf(e).value)
  {
    if (ns, name) == NameOf(e) || (LegacyNameOf(e).Some? && (ns, name) == LegacyNameOf(e).value) {
      LookupFindsNames(e);
    } else if Lookup(ns, name) == e {
      LookupOnlyNames(ns, name);
    }
  }

  lemma LookupFindsNames(e: Elem)
    requires e != Root && e != Unknown
    ensures Lookup(NameOf(e).0, NameOf(e).1) == e
    ensures LegacyNameOf(e).Some? ==> Lookup(LegacyNameOf(e).value.0, LegacyNameOf(e).value.1) == e
  {
    if NameOf(e).0 == PropPrefix {
      PropNamesFound(e);
    } else {
      DavNamesFound(e);
    }
  }

  lemma PropNamesFound(e: Elem)
    requires e != Root && e != Unknown && NameOf(e).0 == PropPrefix
    ensures Lookup(PropPrefix, NameOf(e).1) == e
    ensures LegacyNameOf(e).Some? ==> Lookup(LegacyNameOf(e).value.0, LegacyNameOf(e).value.1) == e
  {
    match e
    case UpdateReport =>
    case TargetRevision =>
    case OpenDirectory =>
    case AddDirectory =>
    case OpenFile =>
    case AddFile =>
    case DeleteEntry =>
    case FetchProps =>
    case RemoveProp =>
    case FetchFile =>
    case Prop =>
    case _ =>
  }

  lemma DavNamesFound(e: Elem)
    requires e != Root && e != Unknown && NameOf(e).0 != PropPrefix
    ensures Lookup(NameOf(e).0, NameOf(e).1) == e
    ensures LegacyNameOf(e).None?
  {
    assert PropPrefix != DavNamespace;
    match e
    case VersionName =>
    case CreationDate =>
    case CreatorDisplayname =>
    case CheckedIn =>
    case Href =>
    case _ =>
  }

  lemma LookupOnlyNames(ns: string, name: string)
    requires Lookup(ns, name) != Unknown
    ensures Lookup(ns, name) != Root
    ensures (ns, name) == NameOf(Lookup(ns, name)) ||
            (LegacyNameOf(Lookup(ns, name)).Some? && (ns, name) == LegacyNameOf(Lookup(ns, name)).value)
  {
    if ns == PropPrefix {
      PropNamesOnly(name);
    } else {
      DavNamesOnly(ns, name);
    }
  }

  lemma PropNamesOnly(name: string)
    requires Lookup(PropPrefix, name) != Unknown
    ensures Lookup(PropPrefix, name) != Root
    ensures (PropPrefix, name) == NameOf(Lookup(PropPrefix, name)) ||
            (LegacyNameOf(Lookup(PropPrefix, name)).Some? && (PropPrefix, name) == LegacyNameOf(Lookup(PropPrefix, name)).value)
  {
  }

  lemma DavNamesOnly(ns: string, name: string)
    requires ns != PropPrefix && Lookup(ns, name) != Unknown
    ensures Lookup(ns, name) != Root
    ensures (ns, name) == NameOf(Lookup(ns, name))
  {
  }

  /** The table never yields the root pseudo-element. */
  lemma LookupNeverRoot(ns: string, name: string)
    ensures Lookup(ns, name) != Root
  {
  }

  /** validate_element: whether the child may appear inside the parent.
      Elements without a rule of their own decline to judge. */
  function Validate(parent: Elem, child: Elem): Validity {
    match parent
    case Root =>
      if child == UpdateReport then Valid else Invalid
    case UpdateReport =>
      if child == TargetRevision || child == OpenDirectory then Valid else Invalid
    case OpenDirectory =>
      if child == OpenDirectory || child == AddDirectory || child == OpenFile || child == AddFile
         || child == FetchProps || child == RemoveProp || child == DeleteEntry || child == Prop
         || child == CheckedIn
      then Valid else Invalid
    case AddDirectory =>
      if child == AddDirectory || child == AddFile || child == Prop || child == CheckedIn then Valid else Invalid
    case OpenFile =>
      if child == CheckedIn || child == FetchFile || child == Prop || child == FetchProps || child == RemoveProp
      then Valid else Invalid
    case AddFile =>
      if child == CheckedIn || child == Prop then Valid else Invalid
    case CheckedIn =>
      if child == Href then Valid else Invalid
    case Prop =>
      if child == VersionName || child == CreationDate || child == CreatorDisplayname || child == RemoveProp
      then Valid else Invalid
    case _ => Decline
  }

  // ---------------------------------------------------------------------
  // Consequences the report parser relies on
  // ---------------------------------------------------------------------

  predicate IsDir(e: Elem) {
    e == OpenDirectory || e == AddDirectory
  }

  predicate IsFile(e: Elem) {
    e == OpenFile || e == AddFile
  }

  /** The elements that make up the tree of directories: the report itself
      and the directory elements. */
  predicate Structural(e: Elem) {
    e == UpdateReport || IsDir(e)
  }

  /** The elements that may appear inside a file element. */
  predicate FileInterior(e: Elem) {
    e == CheckedIn || e == FetchFile || e == Prop || e == FetchProps || e == RemoveProp
    || e == Href || e == VersionName || e == CreationDate || e == CreatorDisplayname
  }

  /** Nothing outside the table is ever admitted. */
  lemma UnknownNeverValid(parent: Elem)
    ensures Validate(parent, Unknown) != Valid
    ensures Validate(parent, Root) != Valid
  {
  }

  /** Inside a file element only file-interior elements appear, so no node
      is opened while a file is open. */
  lemma FileInteriorClosed(parent: Elem, child: Elem)
    requires IsFile(parent) || FileInterior(parent)
    requires Validate(parent, child) == Valid
    ensures FileInterior(child)
  {
  }

  /** Directory elements and the report sit only under the root, the report
      or another directory element. */
  lemma StructuralParents(parent: Elem, child: Elem)
    requires Validate(parent, child) == Valid && Structural(child)
    ensures parent == Root || Structural(parent)
    ensures child == UpdateReport <==> parent == Root
    ensures parent == UpdateReport ==> child == OpenDirectory
  {
  }

  /** A file element sits directly in a directory element. */
  lemma FileParents(parent: Elem, child: Elem)
    requires Validate(parent, child) == Valid && IsFile(child)
    ensures IsDir(parent)
  {
  }

  /** Every element other than the report, the target revision and the root
      directory lies inside a directory element: its parent is a node, a
      prop or a checked-in element. */
  lemma NestedParents(parent: Elem, child: Elem)
    requires Validate(parent, child) == Valid
    requires child != UpdateReport && child != TargetRevision && !IsDir(child)
    ensures IsDir(parent) || IsFile(parent) || parent == Prop || parent == CheckedIn
  {
  }

  /** Only elements that cannot open a node appear directly under the
      report, other than the root directory. */
  lemma ReportChildren(child: Elem)
    requires Validate(UpdateReport, child) == Valid
    ensures child == TargetRevision || child == OpenDirectory
  {
  }

  /** An added directory holds only added nodes and their property and
      version-URL elements: nothing inside it is opened as existing. */
  lemma AddedSubtreesOnlyAdd(parent: Elem, child: Elem)
    requires parent == AddDirectory || parent == AddFile
    requires Validate(parent, child) == Valid
    ensures child == AddDirectory || child == AddFile || child == Prop || child == CheckedIn
  {
  }

  // ---------------------------------------------------------------------
  // Attributes
  // ---------------------------------------------------------------------

  /** get_attr: the value of the first attribute with the given name, or
      None when the start tag does not carry it. */
  function GetAttr(atts: seq<(string, string)>, which: string): Option<string>
    decreases |atts|
  {
    if atts == [] then None
    else if atts[0].0 == which then Some(atts[0].1)
    else GetAttr(atts[1..], which)
  }

  /** get_attr answers None exactly when no attribute has the name, and
      otherwise the value of the first one that has it. */
  lemma {:induction false} GetAttrFindsFirst(atts: seq<(string, string)>, which: string)
    ensures GetAttr(atts, which).None? <==> forall i :: 0 <= i < |atts| ==> atts[i].0 != which
    ensures GetAttr(atts, which).Some? ==>
              exists i :: 0 <= i < |atts| && atts[i] == (which, GetAttr(atts, which).value) &&
                          forall j :: 0 <= j < i ==> atts[j].0 != which
    decreases |atts|
  {
    if atts != [] && atts[0].0 != which {
      var r := GetAttr(atts[1..], which);
      GetAttrFindsFirst(atts[1..], which);
      assert forall i :: 1 <= i < |atts| ==> atts[i] == atts[1..][i - 1];
      if r.Some? {
        var i :| 0 <= i < |atts[1..]| && atts[1..][i] == (which, r.value) &&
                 forall j :: 0 <= j < i ==> atts[1..][j].0 != which;
        assert atts[i + 1] == (which, r.value);
        assert forall j :: 0 <= j < i + 1 ==> atts[j].0 != which by {
          forall j | 0 <= j < i + 1
            ensures atts[j].0 != which
          {
            if j > 0 {
              assert atts[j] == atts[1..][j - 1];
            }
          }
        }
      }
    } else if atts != [] {
      assert atts[0] == (which, GetAttr(atts, which).value);
    }
  }
}
