/** The subtree filter of NETCONF (section 6 of RFC 4741): the selection of the parts of a tree that match a filter. */
module Filter {
  import opened Basics

  datatype Kind = Element | Attribute | Body

  /** An XML node as a value. */
  datatype Xml = Xml(kind: Kind, name: string, value: Option<string>, kids: seq<Xml>)

  /** xml_find: the first child of this name, of any kind. */
  function FindKid(kids: seq<Xml>, name: string): (r: Option<Xml>)
    ensures r.Some? ==> r.value in kids && r.value.name == name
    ensures r.None? ==> forall k :: k in kids ==> k.name != name
  {
    if kids == [] then None else if kids[0].name == name then Some(kids[0]) else FindKid(kids[1..], name)
  }

  /** leafstring: the text of an element that holds nothing else. */
  function LeafString(x: Xml): Option<string> {
    if x.kind == Element && |x.kids| == 1 && x.kids[0].kids == [] && x.kids[0].kind == Body then x.kids[0].value else None
  }

  /** The attribute test. It looks the attribute up in the filter itself. */
  predicate AttributesOk(filter: Xml) {
    forall i :: 0 <= i < |filter.kids| && filter.kids[i].kind == Attribute ==>
      var found := FindKid(filter.kids, filter.kids[i].name);
      filter.kids[i].value.Some? && found.Some? && found.value.value == filter.kids[i].value
  }

  /** One content match: the first child of the name of the leaf, if it is a leaf itself, has the same text. */
  predicate ContentOk(f: Xml, kids: seq<Xml>) {
    LeafString(f).None?
    || match FindKid(kids, f.name)
       case None => false
       case Some(s) => LeafString(s).None? || LeafString(s) == LeafString(f)
  }

  predicate ContentsOk(filter: Xml, kids: seq<Xml>) {
    forall i :: 0 <= i < |filter.kids| && filter.kids[i].kind == Element ==> ContentOk(filter.kids[i], kids)
  }

  /** The filter has an element that is not a content match. */
  predicate Contains(filter: Xml) {
    exists i :: 0 <= i < |filter.kids| && filter.kids[i].kind == Element && LeafString(filter.kids[i]).None?
  }

  /** select_siblings as a function: what is left of the node, or None when the node itself is to go. */
  function Select(filter: Xml, node: Xml): Option<Xml>
    decreases node, 1
  {
    if filter.kids == [] then Some(node)
    else if !AttributesOk(filter) || !ContentsOk(filter, node.kids) then None
    else if !Contains(filter) then Some(node)
    else Some(node.(kids := SelectKids(filter, node, |node.kids|)))
  }

  /** What is left of the first `n` children. */
  function SelectKids(filter: Xml, node: Xml, n: nat): seq<Xml>
    requires n <= |node.kids|
    decreases node, 0, n
  {
    if n == 0 then [] else SelectKids(filter, node, n - 1) + SelectKid(filter, node, n - 1)
  }

  /** What is left of one child: nothing or one node. */
  function SelectKid(filter: Xml, node: Xml, i: nat): seq<Xml>
    requires i < |node.kids|
    decreases node, 0, i
  {
    var s := node.kids[i];
    if s.kind != Element then [s]
    else match FindKid(filter.kids, s.name)
      case None => []
      case Some(f) =>
        if LeafString(f).Some? then [s]
        else match Select(f, s)
          case None => []
          case Some(kept) => [kept]
  }

  // ---------------------------------------------------------------- the verdict, spelled out

  /** Child `i` is the first one called `name`. */
  ghost predicate FirstNamed(kids: seq<Xml>, name: string, i: int) {
    0 <= i < |kids| && kids[i].name == name && forall k :: 0 <= k < i ==> kids[k].name != name
  }

  /** An element that holds this text and nothing else. */
  ghost predicate IsLeaf(x: Xml, text: string) {
    x.kind == Element && |x.kids| == 1 && x.kids[0].kind == Body && x.kids[0].value == Some(text) && x.kids[0].kids == []
  }

  /** An attribute of the filter refuses: it has no value, or the first child of its name has another value. */
  ghost predicate AttributeRefuses(filter: Xml, i: nat)
    requires i < |filter.kids|
  {
    var a := filter.kids[i];
    a.kind == Attribute
    && (a.value.None? || exists j :: FirstNamed(filter.kids, a.name, j) && filter.kids[j].value != a.value)
  }

  /** A leaf of the filter refuses: no child has its name, or the first one that does is a leaf with another text. */
  ghost predicate LeafRefuses(f: Xml, kids: seq<Xml>) {
    exists text :: IsLeaf(f, text)
      && ((forall j :: 0 <= j < |kids| ==> kids[j].name != f.name)
          || exists j, other :: FirstNamed(kids, f.name, j) && IsLeaf(kids[j], other) && other != text)
  }

  ghost predicate Refuses(filter: Xml, node: Xml) {
    && filter.kids != []
    && ((exists i :: 0 <= i < |filter.kids| && AttributeRefuses(filter, i))
        || exists i :: 0 <= i < |filter.kids| && LeafRefuses(filter.kids[i], node.kids))
  }

  lemma {:induction false} FindKidIsFirst(kids: seq<Xml>, name: string)
    ensures FindKid(kids, name).Some? <==> exists i :: FirstNamed(kids, name, i)
    ensures forall i :: FirstNamed(kids, name, i) ==> FindKid(kids, name) == Some(kids[i])
  {
    if kids != [] {
      FindKidIsFirst(kids[1..], name);
      if kids[0].name == name {
        assert FirstNamed(kids, name, 0);
      } else {
        forall i | FirstNamed(kids, name, i) ensures FirstNamed(kids[1..], name, i - 1) {
          assert kids[1..][i - 1] == kids[i];
          assert forall k :: 0 <= k < i - 1 ==> kids[1..][k] == kids[k + 1];
        }
        forall i | FirstNamed(kids[1..], name, i) ensures FirstNamed(kids, name, i + 1) {
          assert kids[1..][i] == kids[i + 1];
          assert forall k :: 0 < k < i + 1 ==> kids[k] == kids[1..][k - 1];
        }
      }
    }
  }

  lemma LeafIsString(x: Xml, text: string)
    ensures IsLeaf(x, text) <==> LeafString(x) == Some(text)
  {}

  lemma AttributesRefuse(filter: Xml)
    ensures AttributesOk(filter) <==> forall i :: 0 <= i < |filter.kids| ==> !AttributeRefuses(filter, i)
  {
    forall i | 0 <= i < |filter.kids| && filter.kids[i].kind == Attribute
      ensures var a := filter.kids[i]; var found := FindKid(filter.kids, a.name);
              AttributeRefuses(filter, i) <==> !(a.value.Some? && found.Some? && found.value.value == a.value)
    {
      var a := filter.kids[i];
      FindKidIsFirst(filter.kids, a.name);
      assert a in filter.kids;
      var j :| FirstNamed(filter.kids, a.name, j);
    }
  }

  lemma ContentsRefuse(f: Xml, kids: seq<Xml>)
    ensures f.kind == Element && !ContentOk(f, kids) <==> LeafRefuses(f, kids)
  {
    hide LeafString, IsLeaf;
    forall x, text ensures IsLeaf(x, text) <==> LeafString(x) == Some(text) {
      LeafIsString(x, text);
    }
    FindKidIsFirst(kids, f.name);
    OnlyElementsAreLeaves(f);
    if f.kind == Element && !ContentOk(f, kids) {
      var text := LeafString(f).value;
      assert IsLeaf(f, text);
      if FindKid(kids, f.name).Some? {
        var j :| FirstNamed(kids, f.name, j);
        assert IsLeaf(kids[j], LeafString(kids[j]).value);
      }
    }
  }

  lemma OnlyElementsAreLeaves(x: Xml)
    ensures LeafString(x).Some? ==> x.kind == Element
  {}

  /** The verdict on a node, for every filter: it is refused exactly when an attribute or a leaf of the filter refuses. */
  lemma SelectVerdict(filter: Xml, node: Xml)
    ensures Select(filter, node).None? <==> Refuses(filter, node)
  {
    hide AttributesOk, ContentOk, AttributeRefuses, LeafRefuses, SelectKids, Contains;
    AttributesRefuse(filter);
    forall i | 0 <= i < |filter.kids|
      ensures filter.kids[i].kind == Element && !ContentOk(filter.kids[i], node.kids) <==>
              LeafRefuses(filter.kids[i], node.kids)
    {
      ContentsRefuse(filter.kids[i], node.kids);
    }
  }

  /** What is left of a node that is not refused: all of it, when the filter has nothing but attributes, text and leaves.
      Else what is no element stays; an element goes whose name the filter does not have; one whose first namesake in
      the filter is a leaf stays whole; and of any other the part is left that this namesake selects. */
  ghost predicate Keeps(filter: Xml, s: Xml, left: seq<Xml>) {
    if s.kind != Element then left == [s]
    else if forall i :: 0 <= i < |filter.kids| ==> filter.kids[i].name != s.name then left == []
    else exists i :: FirstNamed(filter.kids, s.name, i) && LeftBy(filter.kids[i], s, left)
  }

  ghost predicate LeftBy(f: Xml, s: Xml, left: seq<Xml>) {
    if exists text :: IsLeaf(f, text) then left == [s]
    else if Refuses(f, s) then left == []
    else |left| == 1 && Select(f, s) == Some(left[0])
  }

  ghost predicate HasBranch(filter: Xml) {
    exists i :: 0 <= i < |filter.kids| && filter.kids[i].kind == Element && forall text :: !IsLeaf(filter.kids[i], text)
  }

  ghost function Joined(parts: seq<seq<Xml>>): seq<Xml> {
    if parts == [] then [] else Joined(parts[..|parts| - 1]) + parts[|parts| - 1]
  }

  lemma KidKept(filter: Xml, node: Xml, j: nat)
    requires j < |node.kids|
    ensures Keeps(filter, node.kids[j], SelectKid(filter, node, j))
  {
    var s := node.kids[j];
    FindKidIsFirst(filter.kids, s.name);
    var f := FindKid(filter.kids, s.name);
    if f.Some? {
      SelectVerdict(f.value, s);
      forall text ensures IsLeaf(f.value, text) <==> LeafString(f.value) == Some(text) {
        LeafIsString(f.value, text);
      }
      var i :| FirstNamed(filter.kids, s.name, i);
      hide Select, Refuses, LeafString, IsLeaf;
      assert LeafString(f.value).Some? ==> IsLeaf(f.value, LeafString(f.value).value);
    }
  }

  lemma {:induction false} KidsJoined(filter: Xml, node: Xml, n: nat) returns (parts: seq<seq<Xml>>)
    requires n <= |node.kids|
    ensures |parts| == n && SelectKids(filter, node, n) == Joined(parts)
    ensures forall j :: 0 <= j < n ==> Keeps(filter, node.kids[j], parts[j])
  {
    parts := [];
    if n > 0 {
      var before := KidsJoined(filter, node, n - 1);
      KidKept(filter, node, n - 1);
      hide Keeps, SelectKid;
      parts := before + [SelectKid(filter, node, n - 1)];
      assert parts[..n - 1] == before;
    }
  }

  lemma BranchIsContained(filter: Xml)
    ensures HasBranch(filter) <==> Contains(filter)
  {
    forall i | 0 <= i < |filter.kids|
      ensures LeafString(filter.kids[i]).None? <==> forall text :: !IsLeaf(filter.kids[i], text)
    {
      forall text ensures IsLeaf(filter.kids[i], text) <==> LeafString(filter.kids[i]) == Some(text) {
        LeafIsString(filter.kids[i], text);
      }
      hide LeafString, IsLeaf;
      if LeafString(filter.kids[i]).Some? {
        assert IsLeaf(filter.kids[i], LeafString(filter.kids[i]).value);
      }
    }
  }

  lemma SelectLeaves(filter: Xml, node: Xml) returns (parts: seq<seq<Xml>>)
    requires !Refuses(filter, node)
    ensures var left := Select(filter, node);
            && left.Some? && left.value == node.(kids := left.value.kids)
            && (!HasBranch(filter) ==> left.value == node)
            && (HasBranch(filter) ==>
                  && |parts| == |node.kids| && left.value.kids == Joined(parts)
                  && forall j :: 0 <= j < |parts| ==> Keeps(filter, node.kids[j], parts[j]))
  {
    SelectVerdict(filter, node);
    BranchIsContained(filter);
    parts := KidsJoined(filter, node, |node.kids|);
    hide Keeps, Refuses, HasBranch, SelectKids, ContentsOk, AttributesOk;
  }

  /** In particular a filter with nothing but valued attributes of different names keeps every node whole. */
  lemma AttributesKeepAll(filter: Xml, node: Xml)
    requires forall i :: 0 <= i < |filter.kids| ==> filter.kids[i].kind == Attribute && filter.kids[i].value.Some?
    requires forall i, j :: 0 <= i < j < |filter.kids| ==> filter.kids[i].name != filter.kids[j].name
    ensures Select(filter, node) == Some(node)
  {
    forall i | 0 <= i < |filter.kids| ensures !AttributeRefuses(filter, i) && !LeafRefuses(filter.kids[i], node.kids) {
      forall j | FirstNamed(filter.kids, filter.kids[i].name, j) ensures i == j {
        assert filter.kids[i].name == filter.kids[j].name;
      }
    }
    var parts := SelectLeaves(filter, node);
  }

  // ---------------------------------------------------------------- nothing but whole elements goes

  /** `a` is `b` without some of its elements. */
  ghost predicate Pruned(a: Xml, b: Xml)
    decreases b, 1
  {
    a == b.(kids := a.kids) && PrunedKids(a.kids, b, |b.kids|)
  }

  /** `a` is what remains of the first `n` children, in their order, when some elements go. */
  ghost predicate PrunedKids(a: seq<Xml>, b: Xml, n: nat)
    requires n <= |b.kids|
    decreases b, 0, n
  {
    if n == 0 then a == []
    else
      || (b.kids[n - 1].kind == Element && PrunedKids(a, b, n - 1))
      || (a != [] && Pruned(a[|a| - 1], b.kids[n - 1]) && PrunedKids(a[..|a| - 1], b, n - 1))
  }

  lemma {:induction false} PrunedSelf(b: Xml, n: nat)
    requires n <= |b.kids|
    ensures PrunedKids(b.kids[..n], b, n)
    ensures n == |b.kids| ==> Pruned(b, b)
    decreases b, n
  {
    if n > 0 {
      PrunedSelf(b, n - 1);
      PrunedSelf(b.kids[n - 1], |b.kids[n - 1].kids|);
      assert b.kids[..n][..n - 1] == b.kids[..n - 1];
    }
    if n == |b.kids| {
      assert b.kids[..n] == b.kids;
    }
  }

  lemma {:induction false} SelectPrunes(filter: Xml, node: Xml)
    ensures Select(filter, node).Some? ==> Pruned(Select(filter, node).value, node)
    decreases node, 1
  {
    PrunedSelf(node, |node.kids|);
    if Contains(filter) && Select(filter, node).Some? && filter.kids != [] {
      SelectKidsPrunes(filter, node, |node.kids|);
    }
  }

  lemma {:induction false} SelectKidsPrunes(filter: Xml, node: Xml, n: nat)
    requires n <= |node.kids|
    ensures PrunedKids(SelectKids(filter, node, n), node, n)
    decreases node, 0, n
  {
    if n > 0 {
      SelectKidsPrunes(filter, node, n - 1);
      var s, before, last := node.kids[n - 1], SelectKids(filter, node, n - 1), SelectKid(filter, node, n - 1);
      PrunedSelf(s, |s.kids|);
      var f := FindKid(filter.kids, s.name);
      if f.Some? {
        SelectPrunes(f.value, s);
      }
      if last != [] {
        assert (before + last)[..|before|] == before;
      } else {
        assert before + last == before;
      }
    }
  }

  // ---------------------------------------------------------------- a second run

  predicate IsContentMatch(f: Xml) {
    f.kind == Element && LeafString(f).Some?
  }

  predicate HasElement(filter: Xml) {
    exists i :: 0 <= i < |filter.kids| && filter.kids[i].kind == Element
  }

  /** Selecting with this filter can change a node, or refuse it. */
  predicate Touches(filter: Xml) {
    filter.kids != [] && (!AttributesOk(filter) || HasElement(filter))
  }

  /** The elements that a content match looks at are selected by a content match, or by what leaves them alone. */
  ghost predicate ContentSafe(filter: Xml) {
    forall i :: 0 <= i < |filter.kids| && IsContentMatch(filter.kids[i]) ==> NameSafe(filter, filter.kids[i].name)
  }

  ghost predicate NameSafe(filter: Xml, name: string) {
    var g := FindKid(filter.kids, name);
    g.Some? ==> LeafString(g.value).Some? || !Touches(g.value)
  }

  /** The part of the filter that the selection goes on with: no content match, and the first of its name. */
  predicate IsUsed(filter: Xml, f: Xml) {
    LeafString(f).None? && FindKid(filter.kids, f.name) == Some(f)
  }

  /** The filters for which one run is enough. */
  ghost predicate Stable(filter: Xml)
    decreases filter
  {
    || filter.kids == [] || !AttributesOk(filter) || !Contains(filter)
    || (ContentSafe(filter)
        && forall i :: 0 <= i < |filter.kids| && IsUsed(filter, filter.kids[i]) ==> Stable(filter.kids[i]))
  }

  /** A filter that touches nothing leaves every node as it is. */
  lemma UntouchedKept(filter: Xml, node: Xml)
    requires !Touches(filter)
    ensures Select(filter, node) == Some(node)
  {}

  /** A child with the name of a content match is kept as it is. */
  lemma SafeNameKept(filter: Xml, node: Xml, name: string, j: nat)
    requires FindKid(filter.kids, name).Some? && NameSafe(filter, name)
    requires j < |node.kids| && node.kids[j].name == name
    ensures SelectKid(filter, node, j) == [node.kids[j]]
  {
    var s, f := node.kids[j], FindKid(filter.kids, name).value;
    if s.kind == Element && LeafString(f).None? {
      UntouchedKept(f, s);
    }
  }

  lemma {:induction false} FindKidAppend(a: seq<Xml>, b: seq<Xml>, name: string)
    ensures FindKid(a + b, name) == if FindKid(a, name).Some? then FindKid(a, name) else FindKid(b, name)
  {
    if a == [] {
      assert a + b == b;
    } else {
      assert (a + b)[1..] == a[1..] + b;
      FindKidAppend(a[1..], b, name);
    }
  }

  /** The first child of a name among those left, when one more child has been looked at. */
  lemma FirstLeft(filter: Xml, node: Xml, name: string, n: nat)
    requires n < |node.kids|
    ensures var found, kid := FindKid(SelectKids(filter, node, n), name), SelectKid(filter, node, n);
            FindKid(SelectKids(filter, node, n + 1), name) ==
            if found.Some? then found
            else if kid != [] && node.kids[n].name == name then Some(kid[0])
            else None
  {
    SelectKidName(filter, node, n);
    FindKidAppend(SelectKids(filter, node, n), SelectKid(filter, node, n), name);
    hide SelectKid, SelectKids;
    assert SelectKids(filter, node, n + 1) == SelectKids(filter, node, n) + SelectKid(filter, node, n) by {
      LeftUnfold(filter, node, n);
    }
    FindOne(SelectKid(filter, node, n), name);
  }

  lemma LeftUnfold(filter: Xml, node: Xml, n: nat)
    requires n < |node.kids|
    ensures SelectKids(filter, node, n + 1) == SelectKids(filter, node, n) + SelectKid(filter, node, n)
  {}

  lemma FindOne(kids: seq<Xml>, name: string)
    requires |kids| <= 1
    ensures FindKid(kids, name) == if kids != [] && kids[0].name == name then Some(kids[0]) else None
  {}

  /** So the first child with that name is the same after a run. */
  lemma {:induction false} FirstKept(filter: Xml, node: Xml, name: string, n: nat)
    requires FindKid(filter.kids, name).Some? && NameSafe(filter, name)
    requires n <= |node.kids|
    ensures FindKid(SelectKids(filter, node, n), name) == FindKid(node.kids[..n], name)
  {
    if n > 0 {
      FirstKept(filter, node, name, n - 1);
      hide NameSafe, SelectKid, SelectKids;
      FirstLeft(filter, node, name, n - 1);
      assert node.kids[..n] == node.kids[..n - 1] + [node.kids[n - 1]];
      FindKidAppend(node.kids[..n - 1], [node.kids[n - 1]], name);
      FindOne([node.kids[n - 1]], name);
      if node.kids[n - 1].name == name {
        SafeNameKept(filter, node, name, n - 1);
      }
    } else {
      NoneLeft(filter, node);
    }
  }

  lemma NoneLeft(filter: Xml, node: Xml)
    ensures SelectKids(filter, node, 0) == []
  {}

  /** What is left of a child has its name and kind. */
  lemma SelectKidName(filter: Xml, node: Xml, i: nat)
    requires i < |node.kids|
    ensures |SelectKid(filter, node, i)| <= 1
    ensures SelectKid(filter, node, i) != [] ==>
              var k := SelectKid(filter, node, i)[0]; k.name == node.kids[i].name && k.kind == node.kids[i].kind
  {}

  lemma ContentsKept(filter: Xml, node: Xml)
    requires ContentSafe(filter) && ContentsOk(filter, node.kids)
    ensures ContentsOk(filter, SelectKids(filter, node, |node.kids|))
  {
    forall i | 0 <= i < |filter.kids| && filter.kids[i].kind == Element
      ensures ContentOk(filter.kids[i], SelectKids(filter, node, |node.kids|))
    {
      if LeafString(filter.kids[i]).Some? {
        assert IsContentMatch(filter.kids[i]) && filter.kids[i] in filter.kids;
        FirstKept(filter, node, filter.kids[i].name, |node.kids|);
        assert node.kids[..|node.kids|] == node.kids;
        assert ContentOk(filter.kids[i], node.kids);
      }
    }
  }

  /** With such a filter a second run finds nothing more to remove and gives the same verdict. */
  lemma {:induction false} SelectTwice(filter: Xml, node: Xml)
    requires Stable(filter)
    ensures Select(filter, node).Some? ==> Select(filter, Select(filter, node).value) == Select(filter, node)
    decreases node, 1
  {
    var once := Select(filter, node);
    if once.Some? && filter.kids != [] && Contains(filter) {
      ContentsKept(filter, node);
      SelectKidsTwice(filter, node, once.value, |node.kids|);
      assert once.value.kids == SelectKids(filter, node, |node.kids|);
      assert SelectKids(filter, once.value, |once.value.kids|) == once.value.kids;
    }
  }

  lemma {:induction false} SelectKidsTwice(filter: Xml, node: Xml, kept: Xml, n: nat)
    requires Stable(filter) && filter.kids != [] && AttributesOk(filter) && Contains(filter)
    requires n <= |node.kids| && SelectKids(filter, node, n) <= kept.kids
    ensures SelectKids(filter, kept, |SelectKids(filter, node, n)|) == SelectKids(filter, node, n)
    decreases node, 0, n
  {
    if n > 0 {
      var before, last := SelectKids(filter, node, n - 1), SelectKid(filter, node, n - 1);
      assert before <= kept.kids;
      SelectKidsTwice(filter, node, kept, n - 1);
      if last != [] {
        SelectKidName(filter, node, n - 1);
        assert kept.kids[|before|] == last[0];
        SelectKidTwice(filter, node, n - 1, kept, |before|);
      }
    }
  }

  lemma SelectKidTwice(filter: Xml, node: Xml, i: nat, kept: Xml, j: nat)
    requires Stable(filter) && filter.kids != [] && AttributesOk(filter) && Contains(filter)
    requires i < |node.kids| && j < |kept.kids| && SelectKid(filter, node, i) == [kept.kids[j]]
    ensures SelectKid(filter, kept, j) == [kept.kids[j]]
    decreases node, 0, i
  {
    SelectKidName(filter, node, i);
    var s := node.kids[i];
    var f := FindKid(filter.kids, s.name);
    if s.kind == Element && f.Some? && LeafString(f.value).None? {
      var k :| 0 <= k < |filter.kids| && filter.kids[k] == f.value;
      assert Stable(filter.kids[k]);
      SelectTwice(f.value, s);
    }
  }

  // ---------------------------------------------------------------- and no other filters

  function Empty(name: string): Xml {
    Xml(Element, name, None, [])
  }

  /** Children that satisfy every content match of the filter: `s` for those of its name, else an empty element. */
  function Answers(fs: seq<Xml>, s: Xml): seq<Xml> {
    if fs == [] then []
    else if IsContentMatch(fs[0]) then [if fs[0].name == s.name then s else Empty(fs[0].name)] + Answers(fs[1..], s)
    else Answers(fs[1..], s)
  }

  lemma {:induction false} AnswersFind(fs: seq<Xml>, s: Xml, name: string)
    ensures var found := FindKid(Answers(fs, s), name);
            && (found.Some? ==> found.value == if name == s.name then s else Empty(name))
            && (found.Some? <==> exists i :: 0 <= i < |fs| && IsContentMatch(fs[i]) && fs[i].name == name)
  {
    if fs != [] {
      AnswersFind(fs[1..], s, name);
      var found := FindKid(Answers(fs, s), name);
      if IsContentMatch(fs[0]) {
        assert Answers(fs, s)[1..] == Answers(fs[1..], s);
      }
      if exists i :: 0 <= i < |fs| && IsContentMatch(fs[i]) && fs[i].name == name {
        var i :| 0 <= i < |fs| && IsContentMatch(fs[i]) && fs[i].name == name;
        assert i > 0 ==> fs[1..][i - 1] == fs[i];
      }
      if exists i :: 0 <= i < |fs[1..]| && IsContentMatch(fs[1..][i]) && fs[1..][i].name == name {
        var i :| 0 <= i < |fs[1..]| && IsContentMatch(fs[1..][i]) && fs[1..][i].name == name;
        assert fs[i + 1] == fs[1..][i];
      }
    }
  }

  lemma AnswersOk(filter: Xml, s: Xml, more: seq<Xml>)
    requires LeafString(s).None?
    ensures ContentsOk(filter, Answers(filter.kids, s) + more)
  {
    forall i | 0 <= i < |filter.kids| && filter.kids[i].kind == Element
      ensures ContentOk(filter.kids[i], Answers(filter.kids, s) + more)
    {
      var f := filter.kids[i];
      if LeafString(f).Some? {
        assert IsContentMatch(f);
        AnswersFind(filter.kids, s, f.name);
        FindKidAppend(Answers(filter.kids, s), more, f.name);
      }
    }
  }

  /** The first child of a name after a run, when every child of that name is `s`. */
  lemma {:induction false} FirstOfName(filter: Xml, node: Xml, n: nat, s: Xml, left: Option<Xml>)
    requires n <= |node.kids| && s.kind == Element
    requires forall j :: 0 <= j < |node.kids| && node.kids[j].name == s.name ==> node.kids[j] == s
    requires FindKid(filter.kids, s.name).Some? && LeafString(FindKid(filter.kids, s.name).value).None?
    requires Select(FindKid(filter.kids, s.name).value, s) == left
    ensures FindKid(SelectKids(filter, node, n), s.name) ==
            if exists j :: 0 <= j < n && node.kids[j] == s then left else None
  {
    NoneLeft(filter, node);
    if n > 0 {
      FirstOfName(filter, node, n - 1, s, left);
      FirstLeft(filter, node, s.name, n - 1);
      if node.kids[n - 1] == s {
        assert SelectKid(filter, node, n - 1) == if left.Some? then [left.value] else [];
      } else {
        assert node.kids[n - 1].name != s.name;
      }
    }
  }

  lemma SelectName(filter: Xml, node: Xml)
    ensures Select(filter, node).Some? ==> Select(filter, node).value.name == node.name
  {}

  /** What makes a content match fail after a run although it held before: an element that is refused, or one whose
      text is laid bare. */
  lemma Spoiled(g: Xml, f: Xml) returns (s: Xml)
    requires Touches(g) && IsContentMatch(f)
    ensures s.kind == Element && s.name == f.name && LeafString(s).None?
    ensures var left := Select(g, s);
            left.Some? ==> LeafString(left.value).Some? && LeafString(left.value) != LeafString(f)
  {
    s := Empty(f.name);
    if AttributesOk(g) && forall i :: 0 <= i < |g.kids| ==> !IsContentMatch(g.kids[i]) {
      var body := Xml(Body, "body", Some(LeafString(f).value + "x"), []);
      var other := Empty(NewName(g.kids));
      s := Xml(Element, f.name, None, [body, other]);
      NewNameNotFound(g.kids);
      assert ContentsOk(g, s.kids) by {
        assert forall i :: 0 <= i < |g.kids| && g.kids[i].kind == Element ==> !IsContentMatch(g.kids[i]);
      }
      var i :| 0 <= i < |g.kids| && g.kids[i].kind == Element;
      assert !IsContentMatch(g.kids[i]);
      assert SelectKid(g, s, 0) == [body] && SelectKid(g, s, 1) == [];
      assert SelectKids(g, s, 0) == [] && SelectKids(g, s, 1) == [body] && SelectKids(g, s, 2) == [body];
      assert Select(g, s) == Some(s.(kids := [body]));
    } else if AttributesOk(g) {
      var i :| 0 <= i < |g.kids| && IsContentMatch(g.kids[i]);
      assert !ContentOk(g.kids[i], s.kids);
    }
  }

  /** A name that no child has. */
  function NewName(kids: seq<Xml>): string {
    if kids == [] then "" else "x" + kids[0].name + NewName(kids[1..])
  }

  lemma {:induction false} NewNameLong(kids: seq<Xml>, i: nat)
    requires i < |kids|
    ensures |NewName(kids)| > |kids[i].name|
  {
    if i > 0 {
      NewNameLong(kids[1..], i - 1);
    }
  }

  lemma NewNameNotFound(kids: seq<Xml>)
    ensures FindKid(kids, NewName(kids)).None?
  {
    var found := FindKid(kids, NewName(kids));
    if found.Some? {
      var i :| 0 <= i < |kids| && kids[i] == found.value;
      NewNameLong(kids, i);
    }
  }

  /** A second run with the filter does something else with the node than the first one. */
  ghost predicate Differs(filter: Xml, node: Xml) {
    Select(filter, node).Some? && Select(filter, Select(filter, node).value) != Select(filter, node)
  }

  /** A content match whose name is not safe: the second run refuses the node. */
  lemma UnsafeDiffers(filter: Xml, name: string) returns (node: Xml)
    requires AttributesOk(filter) && Contains(filter) && !ContentSafe(filter)
    ensures node.kind == Element && node.name == name && Differs(filter, node)
  {
    var i :| 0 <= i < |filter.kids| && IsContentMatch(filter.kids[i]) && !NameSafe(filter, filter.kids[i].name);
    var f := filter.kids[i];
    var g := FindKid(filter.kids, f.name).value;
    var s := Spoiled(g, f);
    node := Xml(Element, name, None, Answers(filter.kids, s));
    AnswersOk(filter, s, []);
    assert Answers(filter.kids, s) + [] == node.kids;
    AnswersFind(filter.kids, s, s.name);
    forall j | 0 <= j < |node.kids| && node.kids[j].name == s.name ensures node.kids[j] == s {
      AnswersNames(filter.kids, s, j);
    }
    FirstOfName(filter, node, |node.kids|, s, Select(g, s));
    var kept := Select(filter, node).value;
    assert kept.kids == SelectKids(filter, node, |node.kids|);
    assert !ContentOk(f, kept.kids);
  }

  lemma {:induction false} AnswersNames(fs: seq<Xml>, s: Xml, j: nat)
    requires j < |Answers(fs, s)|
    ensures var a := Answers(fs, s)[j]; if a.name == s.name then a == s else a == Empty(a.name)
    ensures exists i :: 0 <= i < |fs| && IsContentMatch(fs[i]) && fs[i].name == Answers(fs, s)[j].name
  {
    if IsContentMatch(fs[0]) {
      if j > 0 {
        AnswersNames(fs[1..], s, j - 1);
        var i :| 0 <= i < |fs[1..]| && IsContentMatch(fs[1..][i]) && fs[1..][i].name == Answers(fs[1..], s)[j - 1].name;
        assert fs[i + 1] == fs[1..][i];
      }
    } else {
      AnswersNames(fs[1..], s, j);
      var i :| 0 <= i < |fs[1..]| && IsContentMatch(fs[1..][i]) && fs[1..][i].name == Answers(fs[1..], s)[j].name;
      assert fs[i + 1] == fs[1..][i];
    }
  }

  /** A part of the filter that the selection uses and for which a second run differs: so it does for the whole. */
  lemma InnerDiffers(filter: Xml, f: Xml, s: Xml, name: string) returns (node: Xml)
    requires AttributesOk(filter) && Contains(filter) && ContentSafe(filter)
    requires FindKid(filter.kids, f.name) == Some(f) && LeafString(f).None?
    requires s.kind == Element && s.name == f.name && Differs(f, s)
    ensures node.kind == Element && node.name == name && Differs(filter, node)
  {
    var answers := Answers(filter.kids, Empty(""));
    var last := |answers|;
    node := Xml(Element, name, None, answers + [s]);
    AnswersOk(filter, Empty(""), [s]);
    var kept := Select(filter, node).value;
    assert kept.kids == SelectKids(filter, node, last + 1) == SelectKids(filter, node, last) + SelectKid(filter, node, last);
    assert SelectKid(filter, node, last) == [Select(f, s).value];
    SelectName(f, s);
    if Select(filter, kept) == Some(kept) {
      LastKidKept(filter, kept);
    }
  }

  /** A run that changes nothing keeps the last child as it is. */
  lemma LastKidKept(filter: Xml, node: Xml)
    requires filter.kids != [] && Contains(filter) && node.kids != [] && Select(filter, node) == Some(node)
    ensures SelectKid(filter, node, |node.kids| - 1) == [node.kids[|node.kids| - 1]]
  {
    var n := |node.kids| - 1;
    SelectKidsShort(filter, node, n);
    SelectKidName(filter, node, n);
    assert node.kids == SelectKids(filter, node, n) + SelectKid(filter, node, n);
  }

  lemma {:induction false} SelectKidsShort(filter: Xml, node: Xml, n: nat)
    requires n <= |node.kids|
    ensures |SelectKids(filter, node, n)| <= n
  {
    if n > 0 {
      SelectKidsShort(filter, node, n - 1);
      SelectKidName(filter, node, n - 1);
    }
  }

  lemma {:induction false} UnstableDiffers(filter: Xml, name: string) returns (node: Xml)
    requires !Stable(filter)
    ensures node.kind == Element && node.name == name && Differs(filter, node)
    decreases filter
  {
    if !ContentSafe(filter) {
      node := UnsafeDiffers(filter, name);
    } else {
      var i :| 0 <= i < |filter.kids| && IsUsed(filter, filter.kids[i]) && !Stable(filter.kids[i]);
      var s := UnstableDiffers(filter.kids[i], filter.kids[i].name);
      node := InnerDiffers(filter, filter.kids[i], s, name);
    }
  }

  /** The condition is exact: one run is enough, for every node, if and only if the filter is stable. */
  lemma StableExactly(filter: Xml)
    ensures Stable(filter) <==> forall node :: !Differs(filter, node)
  {
    hide Stable, Select;
    if Stable(filter) {
      forall node ensures !Differs(filter, node) {
        SelectTwice(filter, node);
      }
    } else {
      var node := UnstableDiffers(filter, filter.name);
    }
  }

  /** Only elements have children, and element siblings have different names. */
  ghost predicate Distinct(filter: Xml)
    decreases filter
  {
    && (filter.kind != Element ==> filter.kids == [])
    && (forall i, j :: 0 <= i < j < |filter.kids| && filter.kids[i].kind == Element && filter.kids[j].kind == Element ==>
          filter.kids[i].name != filter.kids[j].name)
    && (forall i :: 0 <= i < |filter.kids| ==> Distinct(filter.kids[i]))
  }

  /** In particular one run is enough when the names of sibling filter elements differ. */
  lemma {:induction false} DistinctIsStable(filter: Xml)
    requires Distinct(filter)
    ensures Stable(filter)
    decreases filter
  {
    forall i | 0 <= i < |filter.kids| ensures Stable(filter.kids[i]) {
      DistinctIsStable(filter.kids[i]);
    }
    forall i | 0 <= i < |filter.kids| && IsContentMatch(filter.kids[i]) ensures NameSafe(filter, filter.kids[i].name) {
      var g := FindKid(filter.kids, filter.kids[i].name);
      if g.Some? {
        var k :| 0 <= k < |filter.kids| && filter.kids[k] == g.value;
        assert Distinct(filter.kids[k]);
      }
    }
  }

  /** With two filter elements of one name a second run can undo the first: here it removes the node that the first
      run kept. */
  lemma SameNameTwice() returns (filter: Xml, node: Xml)
    ensures Select(filter, node).Some? && Select(filter, Select(filter, node).value).None?
  {
    var wild := Xml(Element, "b", None, [Xml(Element, "body", None, [Xml(Body, "body", Some("x"), [])])]);
    var leaf := Xml(Element, "b", None, [Xml(Body, "body", Some("1"), [])]);
    filter := Xml(Element, "a", None, [wild, leaf]);
    var empty, two := Xml(Element, "b", None, []), Xml(Element, "b", None, [Xml(Body, "body", Some("2"), [])]);
    node := Xml(Element, "a", None, [empty, two]);
    assert filter.kids[0] == wild && filter.kids[1] == leaf;
    assert LeafString(wild).None? && LeafString(leaf) == Some("1") && LeafString(two) == Some("2");
    assert Select(wild, empty).None? by {
      assert !ContentOk(wild.kids[0], empty.kids);
    }
    assert Select(wild, two) == Some(two);
    assert FindKid(filter.kids, "b") == Some(wild);
    assert SelectKid(filter, node, 0) == [] && SelectKid(filter, node, 1) == [two];
    var kept := node.(kids := [two]);
    assert SelectKids(filter, node, 0) == [] && SelectKids(filter, node, 1) == [];
    assert SelectKids(filter, node, 2) == [two];
    assert Select(filter, node) == Some(kept);
    assert !ContentOk(filter.kids[1], kept.kids);
  }

  // ---------------------------------------------------------------- the tree in memory

  /** cxobj: a node with the vector of its children, and the tree it is the root of as a value. */
  class Node {
    const kind: Kind
    const name: string
    const value: Option<string>
    var kids: seq<Node>
    ghost var tree: Xml
    ghost var repr: set<Node>

    /** The children are trees of their own, apart from one another. */
    ghost predicate KidsOk()
      reads this, repr
      decreases repr, 0
    {
      && (forall i :: 0 <= i < |kids| ==>
            kids[i] in repr && kids[i].repr < repr && this !in kids[i].repr && kids[i].Valid())
      && (forall i, j :: 0 <= i < j < |kids| ==> kids[i].repr !! kids[j].repr)
    }

    ghost predicate Valid()
      reads this, repr
      decreases repr, 1
    {
      && this in repr && KidsOk()
      && tree == Xml(kind, name, value, tree.kids) && |tree.kids| == |kids|
      && forall i :: 0 <= i < |kids| ==> kids[i].tree == tree.kids[i]
    }

    constructor (kind: Kind, name: string, value: Option<string>)
      ensures Valid() && fresh(repr) && tree == Xml(kind, name, value, [])
    {
      this.kind, this.name, this.value, kids, repr := kind, name, value, [], {this};
      tree := Xml(kind, name, value, []);
    }

    /** leafstring */
    method LeafText() returns (r: Option<string>)
      requires Valid()
      ensures r == LeafString(tree)
    {
      if kind != Element || |kids| != 1 {
        return None;
      }
      var c := kids[0];
      assert c.Valid() && c.tree == tree.kids[0];
      if |c.kids| != 0 || c.kind != Body {
        return None;
      }
      r := c.value;
    }

    /** xml_find */
    method Find(name: string) returns (r: Option<Node>)
      requires Valid()
      ensures if r.Some? then r.value in kids && FindKid(tree.kids, name) == Some(r.value.tree)
              else FindKid(tree.kids, name) == None
    {
      var i := 0;
      while i < |kids|
        invariant 0 <= i <= |kids| && FindKid(tree.kids, name) == FindKid(tree.kids[i..], name)
      {
        assert tree.kids[i..][0] == tree.kids[i] && tree.kids[i..][1..] == tree.kids[i + 1..];
        assert kids[i].Valid();
        if kids[i].name == name {
          return Some(kids[i]);
        }
        i := i + 1;
      }
      r := None;
    }
  }

  /** The loop over the attributes of the filter. */
  method CheckAttributes(filter: Xml) returns (ok: bool)
    ensures ok == AttributesOk(filter)
  {
    var i := 0;
    while i < |filter.kids|
      invariant 0 <= i <= |filter.kids|
      invariant forall j :: 0 <= j < i && filter.kids[j].kind == Attribute ==>
                  var found := FindKid(filter.kids, filter.kids[j].name);
                  filter.kids[j].value.Some? && found.Some? && found.value.value == filter.kids[j].value
    {
      var attr := filter.kids[i];
      if attr.kind == Attribute {
        var found := FindKid(filter.kids, attr.name);
        if attr.value == None || found == None || found.value.value != attr.value {
          return false;
        }
      }
      i := i + 1;
    }
    ok := true;
  }

  /** The loop over the content matches of the filter. */
  method CheckContents(filter: Xml, parent: Node) returns (ok: bool)
    requires parent.Valid()
    ensures ok == ContentsOk(filter, parent.tree.kids)
  {
    var i := 0;
    while i < |filter.kids|
      invariant 0 <= i <= |filter.kids|
      invariant forall j :: 0 <= j < i && filter.kids[j].kind == Element ==> ContentOk(filter.kids[j], parent.tree.kids)
    {
      var f := filter.kids[i];
      if f.kind == Element && LeafString(f).Some? {
        var s := parent.Find(f.name);
        if s.None? {
          return false;
        }
        var text := s.value.LeafText();
        if text.Some? && text != LeafString(f) {
          return false;
        }
      }
      i := i + 1;
    }
    ok := true;
  }

  /** The count of the elements of the filter that are not content matches. */
  method CountContainments(filter: Xml) returns (n: nat)
    ensures n > 0 <==> Contains(filter)
  {
    n := 0;
    var i := 0;
    while i < |filter.kids|
      invariant 0 <= i <= |filter.kids|
      invariant n > 0 <==> exists j :: 0 <= j < i && filter.kids[j].kind == Element && LeafString(filter.kids[j]).None?
    {
      if filter.kids[i].kind == Element && LeafString(filter.kids[i]).None? {
        n := n + 1;
      }
      i := i + 1;
    }
  }

  /** xml_child_each over elements: the next one after place `from`, or the number of children. */
  method NextElement(parent: Node, from: int) returns (i: nat)
    requires -1 <= from < |parent.kids|
    ensures from < i <= |parent.kids| && (i < |parent.kids| ==> parent.kids[i].kind == Element)
    ensures forall j :: from < j < i ==> parent.kids[j].kind != Element
  {
    i := from + 1;
    while i < |parent.kids| && parent.kids[i].kind != Element
      invariant from < i <= |parent.kids| && forall j :: from < j < i ==> parent.kids[j].kind != Element
    {
      i := i + 1;
    }
  }

  /** The children kept so far are what the selection leaves of the first `n`; the others are still there. */
  ghost predicate Progress(filter: Xml, was: Xml, kids: seq<Node>, c: nat, n: nat)
    reads kids
  {
    && n <= |was.kids| && c <= |kids| && |kids| - c == |was.kids| - n
    && |SelectKids(filter, was, n)| == c
    && (forall i :: 0 <= i < c ==> kids[i].tree == SelectKids(filter, was, n)[i])
    && (forall i :: c <= i < |kids| ==> kids[i].tree == was.kids[n + (i - c)])
  }

  /** The same, but for the tree of the child that is being looked at. */
  ghost predicate ProgressBut(filter: Xml, was: Xml, kids: seq<Node>, c: nat, n: nat)
    reads kids
  {
    && n < |was.kids| && c < |kids| && |kids| - c == |was.kids| - n
    && |SelectKids(filter, was, n)| == c
    && (forall i :: 0 <= i < c ==> kids[i].tree == SelectKids(filter, was, n)[i])
    && (forall i :: c < i < |kids| ==> kids[i].tree == was.kids[n + (i - c)])
  }

  /** A child that is kept, as it was or as it is after its own selection, and one that goes. */
  lemma KeepOne(filter: Xml, was: Xml, kids: seq<Node>, c: nat, n: nat)
    requires ProgressBut(filter, was, kids, c, n) && SelectKid(filter, was, n) == [kids[c].tree]
    ensures Progress(filter, was, kids, c + 1, n + 1)
  {}

  lemma DropOne(filter: Xml, was: Xml, kids: seq<Node>, c: nat, n: nat)
    requires ProgressBut(filter, was, kids, c, n) && SelectKid(filter, was, n) == []
    ensures Progress(filter, was, kids[..c] + kids[c + 1..], c, n + 1)
  {}

  /** Attributes and text are passed over. */
  lemma {:induction false} KeepOthers(filter: Xml, was: Xml, kids: seq<Node>, c: nat, n: nat, i: nat)
    requires Progress(filter, was, kids, c, n) && c <= i <= |kids|
    requires forall j :: c <= j < i ==> kids[j].kind != Element && kids[j].tree.kind == kids[j].kind
    ensures Progress(filter, was, kids, i, n + (i - c))
    decreases i - c
  {
    if c < i {
      KeepOne(filter, was, kids, c, n);
      KeepOthers(filter, was, kids, c + 1, n + 1, i);
    }
  }

  /** xml_prune: the child at place `i` goes. */
  method Prune(parent: Node, i: nat)
    requires parent.KidsOk() && parent in parent.repr && i < |parent.kids|
    modifies parent`kids
    ensures parent.KidsOk() && parent.kids == old(parent.kids[..i] + parent.kids[i + 1..])
  {
    parent.kids := parent.kids[..i] + parent.kids[i + 1..];
  }

  /** select_siblings: the node is pruned in place; the answer is whether it is to go itself. */
  method SelectSiblings(filter: Xml, parent: Node) returns (removeMe: bool)
    requires parent.Valid()
    modifies parent.repr
    ensures parent.Valid() && parent.repr == old(parent.repr)
    ensures removeMe == Select(filter, old(parent.tree)).None?
    ensures removeMe <==> Refuses(filter, old(parent.tree))
    ensures parent.tree == if removeMe then old(parent.tree) else Select(filter, old(parent.tree)).value
    decreases parent.repr, 2
  {
    hide SelectKids, Refuses;
    SelectVerdict(filter, parent.tree);
    removeMe := false;
    if |filter.kids| == 0 {
      return;
    }
    var containments := CountContainments(filter);
    var ok := CheckAttributes(filter);
    if !ok {
      return true;
    }
    ok := CheckContents(filter, parent);
    if !ok {
      return true;
    }
    if containments == 0 {
      return;
    }
    SelectChildren(filter, parent);
  }

  /** The state of the loop over the children. */
  ghost predicate Going(filter: Xml, was: Xml, parent: Node, c: nat, n: nat)
    reads parent, parent.repr
  {
    parent in parent.repr && parent.KidsOk() && Progress(filter, was, parent.kids, c, n)
  }

  lemma GoOn(filter: Xml, was: Xml, parent: Node, c: nat, n: nat, i: nat)
    requires Going(filter, was, parent, c, n) && c <= i <= |parent.kids|
    requires forall j :: c <= j < i ==> parent.kids[j].kind != Element
    ensures Going(filter, was, parent, i, n + (i - c))
  {
    assert forall j :: c <= j < i ==> parent.kids[j].Valid();
    KeepOthers(filter, was, parent.kids, c, n, i);
  }

  /** What the next child is, and that it is still as it was. */
  lemma AtChild(filter: Xml, was: Xml, parent: Node, s: nat, n: nat)
    requires Going(filter, was, parent, s, n) && s < |parent.kids|
    ensures n < |was.kids| && ProgressBut(filter, was, parent.kids, s, n)
    ensures parent.kids[s].Valid() && parent.kids[s].tree == was.kids[n]
    ensures parent.kids[s].tree.name == parent.kids[s].name && parent.kids[s].tree.kind == parent.kids[s].kind
    ensures parent.kids[s].repr < parent.repr && parent !in parent.kids[s].repr && parent.kids[s] in parent.repr
  {}

  lemma KeepChild(filter: Xml, was: Xml, parent: Node, s: nat, n: nat)
    requires parent in parent.repr && parent.KidsOk() && ProgressBut(filter, was, parent.kids, s, n)
    requires SelectKid(filter, was, n) == [parent.kids[s].tree]
    ensures Going(filter, was, parent, s + 1, n + 1)
  {
    KeepOne(filter, was, parent.kids, s, n);
  }

  method DropChild(ghost filter: Xml, ghost was: Xml, parent: Node, s: nat, ghost n: nat)
    requires parent in parent.repr && parent.KidsOk() && ProgressBut(filter, was, parent.kids, s, n)
    requires SelectKid(filter, was, n) == []
    modifies parent`kids
    ensures parent.kids == old(parent.kids[..s] + parent.kids[s + 1..])
    ensures Going(filter, was, parent, s, n + 1)
  {
    DropOne(filter, was, parent.kids, s, n);
    Prune(parent, s);
  }

  /** The recursive call for one child leaves the other children as they are. */
  method TryChild(filter: Xml, f: Xml, ghost was: Xml, parent: Node, s: nat, ghost n: nat) returns (removeS: bool)
    requires Going(filter, was, parent, s, n) && s < |parent.kids| && parent.kids[s].kind == Element
    requires FindKid(filter.kids, parent.kids[s].name) == Some(f) && LeafString(f).None?
    modifies parent.kids[s].repr
    ensures parent.repr == old(parent.repr) && parent.kids == old(parent.kids) && parent in parent.repr && parent.KidsOk()
    ensures ProgressBut(filter, was, parent.kids, s, n)
    ensures SelectKid(filter, was, n) == if removeS then [] else [parent.kids[s].tree]
    decreases parent.repr, 0
  {
    AtChild(filter, was, parent, s, n);
    OthersApart(parent, s);
    removeS := SelectSiblings(f, parent.kids[s]);
    forall j | 0 <= j < |parent.kids| && j != s
      ensures parent.kids[j].Valid() && parent.kids[j].tree == old(parent.kids[j].tree)
              && parent.kids[j].repr == old(parent.kids[j].repr)
    {
      assert parent.kids[j] !in parent.kids[s].repr;
    }
  }

  lemma OthersApart(parent: Node, s: nat)
    requires parent.KidsOk() && s < |parent.kids|
    ensures forall j :: 0 <= j < |parent.kids| && j != s ==>
              parent.kids[j].Valid() && parent.kids[j].repr !! parent.kids[s].repr && parent.kids[j] in parent.kids[j].repr
  {}

  /** The loop over the children, with `s` the current one and `sprev` the last one kept. */
  method SelectChildren(filter: Xml, parent: Node)
    requires parent.Valid()
    modifies parent.repr
    ensures parent.Valid() && parent.repr == old(parent.repr)
    ensures parent.tree == old(parent.tree).(kids := SelectKids(filter, old(parent.tree), |old(parent.tree).kids|))
    decreases parent.repr, 1
  {
    hide *;
    ghost var was, c, n := parent.tree, 0, 0;
    var s, sprev := -1, -1;
    BeforeChildren(filter, parent);
    while true
      invariant parent.repr == old(parent.repr) && Going(filter, was, parent, c, n)
      invariant -1 <= s == sprev < c <= |parent.kids|
      invariant forall j :: s < j < c ==> parent.kids[j].kind != Element
      decreases |was.kids| - n
    {
      var i := NextElement(parent, s);
      GoOn(filter, was, parent, c, n, i);
      c, n := i, n + (i - c);
      if i == |parent.kids| {
        break;
      }
      s := i;
      AtChild(filter, was, parent, i, n);
      var f := FindKid(filter.kids, parent.kids[s].name);
      PlainKid(filter, was, n);
      if f.None? {
        DropChild(filter, was, parent, i, n);
        s, n := sprev, n + 1;
        continue;
      }
      if LeafString(f.value).Some? {
        KeepChild(filter, was, parent, i, n);
        sprev, c, n := s, c + 1, n + 1;
        continue;
      }
      var removeS := TryChild(filter, f.value, was, parent, i, n);
      if removeS {
        DropChild(filter, was, parent, i, n);
        s, n := sprev, n + 1;
      } else {
        KeepChild(filter, was, parent, i, n);
        c, n := c + 1, n + 1;
      }
      sprev := s;
    }
    AllChildren(filter, was, parent);
  }

  /** A child that the filter does not name, and one that it names as a content match. */
  lemma PlainKid(filter: Xml, was: Xml, n: nat)
    requires n < |was.kids| && was.kids[n].kind == Element
    ensures var f := FindKid(filter.kids, was.kids[n].name);
            && (f.None? ==> SelectKid(filter, was, n) == [])
            && (f.Some? && LeafString(f.value).Some? ==> SelectKid(filter, was, n) == [was.kids[n]])
  {}

  lemma BeforeChildren(filter: Xml, parent: Node)
    requires parent.Valid()
    ensures Going(filter, parent.tree, parent, 0, 0) && parent in parent.repr
    ensures parent.tree == Xml(parent.kind, parent.name, parent.value, parent.tree.kids)
  {}

  ghost method AllChildren(filter: Xml, was: Xml, parent: Node)
    requires exists n :: Going(filter, was, parent, |parent.kids|, n)
    requires was == Xml(parent.kind, parent.name, parent.value, was.kids)
    modifies parent`tree
    ensures parent.Valid() && parent.tree == was.(kids := SelectKids(filter, was, |was.kids|))
  {
    parent.tree := was.(kids := SelectKids(filter, was, |was.kids|));
  }

  /** xml_filter: the verdict on the top node itself is not used. */
  method XmlFilter(filter: Xml, node: Node)
    requires node.Valid()
    modifies node.repr
    ensures node.Valid() && node.repr == old(node.repr)
    ensures var kept := Select(filter, old(node.tree)); node.tree == if kept.Some? then kept.value else old(node.tree)
  {
    var removeMe := SelectSiblings(filter, node);
  }
}
