/**
 * `is_parent_pom` of `pom_parser.py`: a POM file is a parent POM when its
 * root element has a `packaging` child whose text is exactly "pom" and a
 * `modules` child, both in the Maven POM namespace. Reading and parsing
 * the XML are not modelled: the function receives the parse outcome.
 */
module Pom {
  import opened Wrappers

  /** The namespace the lookups are made in. */
  const PomNamespace := "http://maven.apache.org/POM/4.0.0"

  /** An XML element as the parser delivers it: qualified tag, text and children. */
  datatype Element = Element(ns: string, local: string, text: Option<string>, children: seq<Element>)

  /** The outcome of reading and parsing the file: any failure raises, which is caught. */
  datatype PomDocument = Unreadable(reason: string) | Document(root: Element)

  /** Whether an element carries the namespaced tag `m:<local>`. */
  predicate HasTag(e: Element, local: string) {
    e.ns == PomNamespace && e.local == local
  }

  /** `root.find("m:<local>", ns)`: the position of the first direct child with that tag. */
  function FindChild(children: seq<Element>, local: string): (r: Option<nat>)
    ensures r.None? <==> forall i :: 0 <= i < |children| ==> !HasTag(children[i], local)
    ensures r.Some? ==> r.value < |children| && HasTag(children[r.value], local)
    ensures r.Some? ==> forall i :: 0 <= i < r.value ==> !HasTag(children[i], local)
  {
    if children == [] then None
    else if HasTag(children[0], local) then Some(0)
    else match FindChild(children[1..], local)
      case None => None
      case Some(k) => Some(k + 1)
  }

  /** `is_parent_pom`. */
  predicate IsParentPom(doc: PomDocument) {
    match doc
    case Unreadable(_) => false
    case Document(root) =>
      var packaging := FindChild(root.children, "packaging");
      var modules := FindChild(root.children, "modules");
      packaging.Some? && root.children[packaging.value].text == Some("pom") && modules.Some?
  }

  // ---------------------------------------------------------------------
  // Properties

  /**
   * A document is a parent POM exactly when the first `packaging` child
   * reads "pom" and some `modules` child exists, whatever its content.
   */
  lemma ParentPomExactly(doc: PomDocument)
    ensures IsParentPom(doc) <==>
      doc.Document? &&
      (exists i :: 0 <= i < |doc.root.children| && HasTag(doc.root.children[i], "packaging")
         && doc.root.children[i].text == Some("pom")
         && forall j :: 0 <= j < i ==> !HasTag(doc.root.children[j], "packaging")) &&
      (exists i :: 0 <= i < |doc.root.children| && HasTag(doc.root.children[i], "modules"))
  {
    if doc.Document? {
      var cs := doc.root.children;
      var p := FindChild(cs, "packaging");
      if p.Some? {
        forall i | 0 <= i < |cs| && HasTag(cs[i], "packaging") && forall j :: 0 <= j < i ==> !HasTag(cs[j], "packaging")
          ensures i == p.value
        {
        }
      }
    }
  }

  /** A file that cannot be read or parsed is never a parent POM. */
  lemma UnreadableIsNotParent(reason: string)
    ensures !IsParentPom(Unreadable(reason))
  {
  }

  /** The text must be "pom" exactly: any other text, or none, says no. */
  lemma PackagingMustBePom(doc: PomDocument, i: nat)
    requires doc.Document? && FindChild(doc.root.children, "packaging") == Some(i)
    requires doc.root.children[i].text != Some("pom")
    ensures !IsParentPom(doc)
  {
  }

  /** Only the first `packaging` child is looked at: a later one reading "pom" does not help. */
  lemma {:induction false} LaterPackagingIgnored(root: Element, extra: Element)
    requires HasTag(extra, "packaging")
    requires exists i :: 0 <= i < |root.children| && HasTag(root.children[i], "packaging")
    ensures IsParentPom(Document(root.(children := root.children + [extra])))
            == IsParentPom(Document(root))
  {
    var cs := root.children;
    var ds := cs + [extra];
    FindPrefix(cs, [extra], "packaging");
    FindPrefixModules(cs, extra);
  }

  /** A lookup that already succeeds in a prefix is not changed by what follows. */
  lemma {:induction false} FindPrefix(cs: seq<Element>, more: seq<Element>, local: string)
    requires FindChild(cs, local).Some?
    ensures FindChild(cs + more, local) == FindChild(cs, local)
    ensures (cs + more)[FindChild(cs, local).value] == cs[FindChild(cs, local).value]
  {
    var k := FindChild(cs, local).value;
    var r := FindChild(cs + more, local);
    assert HasTag((cs + more)[k], local);
    assert forall i :: 0 <= i < k ==> (cs + more)[i] == cs[i];
  }

  /** Appending a `packaging` child does not change where `modules` is found, or whether. */
  lemma FindPrefixModules(cs: seq<Element>, extra: Element)
    requires HasTag(extra, "packaging")
    ensures FindChild(cs + [extra], "modules").Some? == FindChild(cs, "modules").Some?
  {
    var ds := cs + [extra];
    assert forall i :: 0 <= i < |cs| ==> ds[i] == cs[i];
    assert !HasTag(ds[|cs|], "modules") by {
      assert ds[|cs|] == extra;
      assert "packaging" != "modules";
    }
  }

  /** Elements outside the Maven namespace are never found: a POM without it is never a parent. */
  lemma WrongNamespaceNeverParent(root: Element)
    requires forall i :: 0 <= i < |root.children| ==> root.children[i].ns != PomNamespace
    ensures !IsParentPom(Document(root))
  {
  }

  /** A parent POM needs both children: removing all `modules` children makes it an ordinary POM. */
  lemma ModulesRequired(root: Element)
    requires forall i :: 0 <= i < |root.children| ==> !HasTag(root.children[i], "modules")
    ensures !IsParentPom(Document(root))
  {
  }
}
