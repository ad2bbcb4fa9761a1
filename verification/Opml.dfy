/** `subscriptions/opml.py`: feeds in from a tree of outlines, and out to one again. */
module Opml {
  import opened Normalise

  /** An `<outline>`; an attribute it lacks is as good as empty. */
  datatype Node = Node(xmlUrl: string, xmlurl: string, htmlUrl: string, title: string, text: string, children: seq<Node>)

  /** One subscription. */
  datatype Outline = Outline(url: string, title: string, category: string, siteUrl: string, needsDiscovery: bool)

  function Or(a: string, b: string): string {
    if a != "" then a else b
  }

  // -------------------------------------------------------------------------------------
  // In.

  function UrlOf(n: Node): string {
    Stripped(Or(n.xmlUrl, n.xmlurl))
  }

  function TitleOf(n: Node): string {
    Stripped(Or(n.title, n.text))
  }

  /** What a list of outlines holds, under the category they are found in. */
  function Found(nodes: seq<Node>, category: string): seq<Outline>
    decreases nodes
  {
    if nodes == [] then []
    else Found(nodes[..|nodes| - 1], category) + FoundAt(nodes[|nodes| - 1], category)
  }

  function FoundAt(n: Node, category: string): seq<Outline>
    decreases n
  {
    if UrlOf(n) != "" then [Outline(UrlOf(n), TitleOf(n), category, Stripped(n.htmlUrl), false)]
    else if n.children != [] then Found(n.children, Or(TitleOf(n), category))
    else if Stripped(n.htmlUrl) != "" then [Outline(Stripped(n.htmlUrl), TitleOf(n), category, "", true)]
    else []
  }

  lemma FoundStep(nodes: seq<Node>, n: Node, category: string)
    ensures Found(nodes + [n], category) == Found(nodes, category) + FoundAt(n, category)
  {
    assert (nodes + [n])[..|nodes|] == nodes;
  }

  lemma Regrouped(a: seq<Outline>, b: seq<Outline>, c: seq<Outline>)
    ensures a + (b + c) == (a + b) + c
  {
  }

  class Listing {
    var outlines: seq<Outline>

    constructor ()
      ensures outlines == []
    {
      outlines := [];
    }

    /** `_walk`. */
    method Walk(element: Node, category: string)
      modifies this
      ensures outlines == old(outlines) + Found(element.children, category)
      decreases element
    {
      var children := element.children;
      for i := 0 to |children|
        invariant outlines == old(outlines) + Found(children[..i], category)
      {
        var child := children[i];
        assert children[..i + 1] == children[..i] + [child];
        FoundStep(children[..i], child, category);
        Regrouped(old(outlines), Found(children[..i], category), FoundAt(child, category));
        var feedUrl, siteUrl, title := UrlOf(child), Stripped(child.htmlUrl), TitleOf(child);
        if feedUrl != "" {
          outlines := outlines + [Outline(feedUrl, title, category, siteUrl, false)];
        } else if child.children != [] {
          Walk(child, Or(title, category));
        } else if siteUrl != "" {
          outlines := outlines + [Outline(siteUrl, title, category, "", true)];
        }
      }
      assert children[..|children|] == children;
    }
  }

  // -------------------------------------------------------------------------------------
  // Out.

  /** Strings by their characters, as Python compares them. */
  predicate Precedes(a: string, b: string) {
    b != "" && (a == "" || a[0] < b[0] || (a[0] == b[0] && Precedes(a[1..], b[1..])))
  }

  /** `lower` stands for `str.lower`. */
  predicate Before(lower: string -> string, x: Outline, y: Outline) {
    Precedes(lower(x.title), lower(y.title)) || (lower(x.title) == lower(y.title) && Precedes(x.url, y.url))
  }

  /** Where the next of a stable sort goes: after everything it does not precede. */
  function Inserted(lower: string -> string, xs: seq<Outline>, x: Outline): seq<Outline> {
    if xs == [] || !Before(lower, x, xs[|xs| - 1]) then xs + [x]
    else Inserted(lower, xs[..|xs| - 1], x) + [xs[|xs| - 1]]
  }

  function Sorted(lower: string -> string, xs: seq<Outline>): seq<Outline> {
    if xs == [] then [] else Inserted(lower, Sorted(lower, xs[..|xs| - 1]), xs[|xs| - 1])
  }

  function NameInserted(names: seq<string>, name: string): seq<string> {
    if names == [] || !Precedes(name, names[|names| - 1]) then names + [name]
    else NameInserted(names[..|names| - 1], name) + [names[|names| - 1]]
  }

  function NamesSorted(names: seq<string>): seq<string> {
    if names == [] then [] else NameInserted(NamesSorted(names[..|names| - 1]), names[|names| - 1])
  }

  /** The categories, in the order they are first seen. */
  function Categories(xs: seq<Outline>): seq<string> {
    if xs == [] then []
    else
      var seen, x := Categories(xs[..|xs| - 1]), xs[|xs| - 1];
      if x.category in seen then seen else seen + [x.category]
  }

  /** The outlines of one category, in their order. */
  function Of(xs: seq<Outline>, category: string): seq<Outline> {
    if xs == [] then []
    else Of(xs[..|xs| - 1], category) + if xs[|xs| - 1].category == category then [xs[|xs| - 1]] else []
  }

  function Leaf(x: Outline): Node {
    var title := Or(x.title, x.url);
    Node(x.url, "", x.siteUrl, title, title, [])
  }

  function Leaves(xs: seq<Outline>): seq<Node> {
    if xs == [] then [] else Leaves(xs[..|xs| - 1]) + [Leaf(xs[|xs| - 1])]
  }

  /** One category's outlines: by themselves, or under an outline named for it. */
  function Section(category: string, leaves: seq<Node>): seq<Node> {
    if category == "" then leaves else [Node("", "", "", category, category, leaves)]
  }

  function Sections(lower: string -> string, xs: seq<Outline>, names: seq<string>): seq<Node> {
    if names == [] then []
    else
      var n := |names| - 1;
      Sections(lower, xs, names[..n]) + Section(names[n], Leaves(Sorted(lower, Of(xs, names[n]))))
  }

  /** The body `render` writes. */
  function Rendered(lower: string -> string, xs: seq<Outline>): seq<Node> {
    Sections(lower, xs, NamesSorted(Categories(xs)))
  }

  method Grouped(xs: seq<Outline>) returns (grouped: map<string, seq<Outline>>, names: seq<string>)
    ensures names == Categories(xs)
    ensures forall c :: c in grouped <==> c in names
    ensures forall c :: c in grouped ==> grouped[c] == Of(xs, c)
  {
    grouped, names := map[], [];
    for n := 0 to |xs|
      invariant names == Categories(xs[..n])
      invariant forall c :: c in grouped <==> c in names
      invariant forall c :: c in grouped ==> grouped[c] == Of(xs[..n], c)
      invariant forall c :: c !in grouped ==> Of(xs[..n], c) == []
    {
      var x := xs[n];
      assert xs[..n + 1][..n] == xs[..n];
      if x.category !in grouped {
        grouped := grouped[x.category := []];
        names := names + [x.category];
      }
      grouped := grouped[x.category := grouped[x.category] + [x]];
    }
    assert xs[..|xs|] == xs;
  }

  method LeavesOf(outlines: seq<Outline>) returns (leaves: seq<Node>)
    ensures leaves == Leaves(outlines)
  {
    leaves := [];
    for i := 0 to |outlines|
      invariant leaves == Leaves(outlines[..i])
    {
      assert outlines[..i + 1][..i] == outlines[..i];
      leaves := leaves + [Leaf(outlines[i])];
    }
    assert outlines[..|outlines|] == outlines;
  }

  lemma {:induction false} SectionsStep(lower: string -> string, xs: seq<Outline>, names: seq<string>, n: nat)
    requires n < |names|
    ensures Sections(lower, xs, names[..n + 1])
         == Sections(lower, xs, names[..n]) + Section(names[n], Leaves(Sorted(lower, Of(xs, names[n]))))
  {
    assert names[..n + 1][..n] == names[..n];
  }

  /** `render`, as the tree its lines spell. */
  method Render(lower: string -> string, xs: seq<Outline>) returns (body: seq<Node>)
    ensures body == Rendered(lower, xs)
  {
    var grouped, seen := Grouped(xs);
    var names := NamesSorted(seen);
    NamesAreSorted(seen);
    body := [];
    for n := 0 to |names|
      invariant body == Sections(lower, xs, names[..n])
    {
      SectionsStep(lower, xs, names, n);
      assert names[n] in names;
      var leaves := LeavesOf(Sorted(lower, grouped[names[n]]));
      body := body + Section(names[n], leaves);
    }
    assert names[..|names|] == names;
  }

  // -------------------------------------------------------------------------------------
  // Orders.

  lemma {:induction false} PrecedesOrders(a: string, b: string, c: string)
    ensures !Precedes(a, a)
    ensures a == b || Precedes(a, b) || Precedes(b, a)
    ensures Precedes(a, b) && Precedes(b, c) ==> Precedes(a, c)
    decreases |a| + |b| + |c|
  {
    if a != "" {
      PrecedesOrders(a[1..], if b != "" then b[1..] else "", if c != "" then c[1..] else "");
      assert a == [a[0]] + a[1..];
      assert b != "" ==> b == [b[0]] + b[1..];
    }
  }

  lemma BeforeOrders(lower: string -> string, x: Outline, y: Outline, z: Outline)
    ensures !Before(lower, x, x)
    ensures Before(lower, x, y) && Before(lower, y, z) ==> Before(lower, x, z)
    ensures !Before(lower, x, y) && !Before(lower, y, x) <==> lower(x.title) == lower(y.title) && x.url == y.url
    ensures Before(lower, x, y) && !Before(lower, z, y) ==> Before(lower, x, z)
  {
    PrecedesOrders(lower(x.title), lower(y.title), lower(z.title));
    PrecedesOrders(lower(y.title), lower(z.title), lower(y.title));
    PrecedesOrders(lower(y.title), lower(x.title), lower(y.title));
    PrecedesOrders(x.url, y.url, z.url);
    PrecedesOrders(y.url, z.url, y.url);
    PrecedesOrders(y.url, x.url, y.url);
  }

  /** Nothing precedes what comes before it. */
  ghost predicate InOrder(lower: string -> string, xs: seq<Outline>) {
    forall i, j :: 0 <= i < j < |xs| ==> !Before(lower, xs[j], xs[i])
  }

  ghost predicate NamesInOrder(names: seq<string>) {
    forall i, j :: 0 <= i < j < |names| ==> Precedes(names[i], names[j])
  }

  lemma {:induction false} InsertedKeeps(lower: string -> string, xs: seq<Outline>, x: Outline)
    ensures multiset(Inserted(lower, xs, x)) == multiset(xs) + multiset{x}
  {
    if xs != [] {
      InsertedKeeps(lower, xs[..|xs| - 1], x);
      assert xs == xs[..|xs| - 1] + [xs[|xs| - 1]];
    }
  }

  lemma AppendedInOrder(lower: string -> string, xs: seq<Outline>, x: Outline)
    requires InOrder(lower, xs) && forall y :: y in xs ==> !Before(lower, x, y)
    ensures InOrder(lower, xs + [x])
  {
  }

  lemma {:induction false} InsertedIs(lower: string -> string, xs: seq<Outline>, x: Outline)
    requires InOrder(lower, xs)
    ensures InOrder(lower, Inserted(lower, xs, x))
  {
    if xs == [] {
      AppendedInOrder(lower, xs, x);
    } else if Before(lower, x, xs[|xs| - 1]) {
      var init, last := xs[..|xs| - 1], xs[|xs| - 1];
      InsertedIs(lower, init, x);
      forall y | y in Inserted(lower, init, x) ensures !Before(lower, last, y) {
        InsertedMember(lower, init, x, y);
        BeforeOrders(lower, x, last, x);
      }
      AppendedInOrder(lower, Inserted(lower, init, x), last);
    } else {
      var last := xs[|xs| - 1];
      forall y | y in xs ensures !Before(lower, x, y) {
        BeforeOrders(lower, x, y, last);
      }
      AppendedInOrder(lower, xs, x);
    }
  }

  lemma InsertedMember(lower: string -> string, xs: seq<Outline>, x: Outline, y: Outline)
    ensures y in Inserted(lower, xs, x) <==> y == x || y in xs
  {
    InsertedKeeps(lower, xs, x);
    assert y in Inserted(lower, xs, x) <==> y in multiset(Inserted(lower, xs, x));
  }

  lemma {:induction false} SortedInOrder(lower: string -> string, xs: seq<Outline>)
    ensures InOrder(lower, Sorted(lower, xs))
  {
    if xs != [] {
      SortedInOrder(lower, xs[..|xs| - 1]);
      InsertedIs(lower, Sorted(lower, xs[..|xs| - 1]), xs[|xs| - 1]);
    }
  }

  lemma {:induction false} SortedKeeps(lower: string -> string, xs: seq<Outline>)
    ensures multiset(Sorted(lower, xs)) == multiset(xs)
  {
    if xs != [] {
      SortedKeeps(lower, xs[..|xs| - 1]);
      InsertedKeeps(lower, Sorted(lower, xs[..|xs| - 1]), xs[|xs| - 1]);
      assert xs == xs[..|xs| - 1] + [xs[|xs| - 1]];
    }
  }

  lemma SortedIs(lower: string -> string, xs: seq<Outline>)
    ensures InOrder(lower, Sorted(lower, xs)) && multiset(Sorted(lower, xs)) == multiset(xs)
  {
    SortedInOrder(lower, xs);
    SortedKeeps(lower, xs);
  }

  lemma StaysLast(lower: string -> string, init: seq<Outline>, last: Outline)
    requires forall x :: x in init ==> !Before(lower, last, x)
    ensures Inserted(lower, init, last) == init + [last]
  {
  }

  lemma {:induction false} SortedAlready(lower: string -> string, xs: seq<Outline>)
    requires InOrder(lower, xs)
    ensures Sorted(lower, xs) == xs
  {
    if xs != [] {
      SortedAlready(lower, xs[..|xs| - 1]);
      StaysLast(lower, xs[..|xs| - 1], xs[|xs| - 1]);
      LastOff([], xs);
    }
  }

  lemma {:induction false} NameInsertedIs(names: seq<string>, name: string)
    requires NamesInOrder(names) && name !in names
    ensures NamesInOrder(NameInserted(names, name))
    ensures forall c :: c in NameInserted(names, name) <==> c == name || c in names
  {
    if names != [] {
      var n := |names| - 1;
      var last := names[n];
      assert names == names[..n] + [last];
      if Precedes(name, last) {
        NameInsertedIs(names[..n], name);
        var r := NameInserted(names[..n], name);
        forall i | 0 <= i < |r| ensures Precedes(r[i], last) {
          assert r[i] in r;
        }
      } else {
        forall i | 0 <= i < |names| ensures Precedes(names[i], name) {
          PrecedesOrders(names[i], last, name);
          PrecedesOrders(last, name, last);
        }
      }
    }
  }

  ghost predicate Distinct(names: seq<string>) {
    forall i, j :: 0 <= i < j < |names| ==> names[i] != names[j]
  }

  lemma {:induction false} NamesAreSorted(names: seq<string>)
    ensures forall c :: c in NamesSorted(names) <==> c in names
    ensures Distinct(names) ==> NamesInOrder(NamesSorted(names))
  {
    if names != [] {
      var init, name := names[..|names| - 1], names[|names| - 1];
      assert names == init + [name];
      NamesAreSorted(init);
      NameMembers(NamesSorted(init), name);
      if Distinct(names) {
        assert Distinct(init) && name !in init;
        NameInsertedIs(NamesSorted(init), name);
      }
    }
  }

  lemma {:induction false} NameMembers(names: seq<string>, name: string)
    ensures forall c :: c in NameInserted(names, name) <==> c == name || c in names
  {
    if names != [] {
      assert names == names[..|names| - 1] + [names[|names| - 1]];
      NameMembers(names[..|names| - 1], name);
    }
  }

  lemma {:induction false} NamesSortedAlready(names: seq<string>)
    requires NamesInOrder(names)
    ensures NamesSorted(names) == names
  {
    if names != [] {
      var n := |names| - 1;
      NamesSortedAlready(names[..n]);
      assert names == names[..n] + [names[n]];
      if n > 0 { PrecedesOrders(names[n], names[n - 1], names[n]); }
    }
  }

  lemma {:induction false} CategoriesAre(xs: seq<Outline>)
    ensures Distinct(Categories(xs))
    ensures forall c :: c in Categories(xs) <==> Of(xs, c) != []
    ensures forall x :: x in xs ==> x.category in Categories(xs)
  {
    if xs != [] {
      var n := |xs| - 1;
      CategoriesAre(xs[..n]);
      assert xs == xs[..n] + [xs[n]];
      var seen := Categories(xs[..n]);
      assert forall c :: c in seen + [xs[n].category] <==> c in seen || c == xs[n].category;
    }
  }

  // -------------------------------------------------------------------------------------
  // Out and in again.

  /** What one trip makes of a subscription: a title if it had none, and nothing to discover. */
  function Settled(x: Outline): Outline {
    x.(title := Or(x.title, x.url), needsDiscovery := false)
  }

  function AllSettled(xs: seq<Outline>): (r: seq<Outline>)
    ensures |r| == |xs| && forall i :: 0 <= i < |xs| ==> r[i] == Settled(xs[i])
  {
    seq(|xs|, i requires 0 <= i < |xs| => Settled(xs[i]))
  }

  /** Categories in order, each one's outlines sorted. */
  function Gathered(lower: string -> string, xs: seq<Outline>, names: seq<string>): seq<Outline> {
    if names == [] then []
    else
      var n := |names| - 1;
      Gathered(lower, xs, names[..n]) + Sorted(lower, Of(xs, names[n]))
  }

  /** The list one trip comes back with. */
  function Normal(lower: string -> string, xs: seq<Outline>): seq<Outline> {
    AllSettled(Gathered(lower, xs, NamesSorted(Categories(xs))))
  }

  predicate IsStripped(s: string) {
    Stripped(s) == s
  }

  predicate Clean(x: Outline) {
    x.url != "" && IsStripped(x.url) && IsStripped(x.title) && IsStripped(x.category) && IsStripped(x.siteUrl)
  }

  ghost predicate AllClean(xs: seq<Outline>) {
    forall x :: x in xs ==> Clean(x)
  }

  lemma LastOff<T>(a: seq<T>, b: seq<T>)
    requires b != []
    ensures a + b == a + b[..|b| - 1] + [b[|b| - 1]] && b == b[..|b| - 1] + [b[|b| - 1]]
  {
  }

  lemma {:induction false} FoundJoins(a: seq<Node>, b: seq<Node>, category: string)
    ensures Found(a + b, category) == Found(a, category) + Found(b, category)
    decreases |b|
  {
    if b == [] {
      assert a + b == a;
    } else {
      var n := |b| - 1;
      FoundJoins(a, b[..n], category);
      FoundStep(a + b[..n], b[n], category);
      FoundStep(b[..n], b[n], category);
      LastOff(a, b);
      Regrouped(Found(a, category), Found(b[..n], category), FoundAt(b[n], category));
    }
  }

  lemma {:induction false} LeavesFound(xs: seq<Outline>, category: string)
    requires AllClean(xs) && forall x :: x in xs ==> x.category == category
    ensures Found(Leaves(xs), category) == AllSettled(xs)
  {
    if xs != [] {
      var n := |xs| - 1;
      assert xs[n] in xs && forall x :: x in xs[..n] ==> x in xs;
      LeavesFound(xs[..n], category);
      FoundStep(Leaves(xs[..n]), Leaf(xs[n]), category);
      LeafFound(xs[n]);
      SettledJoins(xs[..n], [xs[n]]);
      LastOff([], xs);
    }
  }

  lemma LeafFound(x: Outline)
    requires Clean(x)
    ensures FoundAt(Leaf(x), x.category) == [Settled(x)] == AllSettled([x])
  {
  }

  lemma {:induction false} LeavesCount(xs: seq<Outline>)
    ensures |Leaves(xs)| == |xs|
  {
    if xs != [] { LeavesCount(xs[..|xs| - 1]); }
  }

  lemma SectionFound(category: string, xs: seq<Outline>)
    requires AllClean(xs) && xs != [] && forall x :: x in xs ==> x.category == category
    ensures Found(Section(category, Leaves(xs)), "") == AllSettled(xs)
  {
    LeavesFound(xs, category);
    LeavesCount(xs);
    assert xs[0] in xs && IsStripped(category);
    if category != "" {
      var node := Node("", "", "", category, category, Leaves(xs));
      assert Stripped("") == "";
      assert [node][..0] == [];
      assert Found([node], "") == FoundAt(node, "");
    }
  }

  lemma SettledJoins(a: seq<Outline>, b: seq<Outline>)
    ensures AllSettled(a + b) == AllSettled(a) + AllSettled(b)
  {
  }

  lemma {:induction false} OfIs(xs: seq<Outline>, category: string)
    ensures forall x :: x in Of(xs, category) <==> x in xs && x.category == category
  {
    if xs != [] {
      OfIs(xs[..|xs| - 1], category);
      assert xs == xs[..|xs| - 1] + [xs[|xs| - 1]];
    }
  }

  /** The outlines of a category, sorted, are still all of them and only them. */
  lemma SortedOf(lower: string -> string, xs: seq<Outline>, category: string)
    ensures forall x :: x in Sorted(lower, Of(xs, category)) <==> x in xs && x.category == category
    ensures Of(xs, category) != [] ==> Sorted(lower, Of(xs, category)) != []
  {
    OfIs(xs, category);
    SortedIs(lower, Of(xs, category));
    var ys := Sorted(lower, Of(xs, category));
    assert forall x :: x in ys <==> x in multiset(ys);
    assert |multiset(ys)| == |ys|;
  }

  lemma {:induction false} SectionsFound(lower: string -> string, xs: seq<Outline>, names: seq<string>)
    requires AllClean(xs) && forall c :: c in names ==> Of(xs, c) != []
    ensures Found(Sections(lower, xs, names), "") == AllSettled(Gathered(lower, xs, names))
  {
    if names != [] {
      var n := |names| - 1;
      var group := Sorted(lower, Of(xs, names[n]));
      assert names[n] in names && forall c :: c in names[..n] ==> c in names;
      SectionsFound(lower, xs, names[..n]);
      SortedOf(lower, xs, names[n]);
      SectionFound(names[n], group);
      FoundJoins(Sections(lower, xs, names[..n]), Section(names[n], Leaves(group)), "");
      SettledJoins(Gathered(lower, xs, names[..n]), group);
    }
  }

  /** Out and in again: the same subscriptions, by category and sorted, each with a title. */
  lemma RoundTrip(lower: string -> string, xs: seq<Outline>)
    requires AllClean(xs)
    ensures Found(Rendered(lower, xs), "") == Normal(lower, xs)
  {
    CategoriesAre(xs);
    NamesAreSorted(Categories(xs));
    SectionsFound(lower, xs, NamesSorted(Categories(xs)));
  }

  // -------------------------------------------------------------------------------------
  // Nothing lost, nothing invented.

  function Among(xs: seq<Outline>, names: seq<string>): seq<Outline> {
    if xs == [] then []
    else Among(xs[..|xs| - 1], names) + if xs[|xs| - 1].category in names then [xs[|xs| - 1]] else []
  }

  lemma {:induction false} AmongSplits(xs: seq<Outline>, names: seq<string>, name: string)
    requires name !in names
    ensures multiset(Among(xs, names + [name])) == multiset(Among(xs, names)) + multiset(Of(xs, name))
  {
    if xs != [] {
      AmongSplits(xs[..|xs| - 1], names, name);
      assert xs[|xs| - 1].category in names + [name] <==> xs[|xs| - 1].category in names || xs[|xs| - 1].category == name;
    }
  }

  lemma {:induction false} AmongNone(xs: seq<Outline>)
    ensures Among(xs, []) == []
  {
    if xs != [] { AmongNone(xs[..|xs| - 1]); }
  }

  lemma {:induction false} AmongAll(xs: seq<Outline>, names: seq<string>)
    requires forall i :: 0 <= i < |xs| ==> xs[i].category in names
    ensures Among(xs, names) == xs
  {
    if xs != [] {
      AmongAll(xs[..|xs| - 1], names);
      LastOff([], xs);
    }
  }

  lemma {:induction false} GatheredKeeps(lower: string -> string, xs: seq<Outline>, names: seq<string>)
    requires Distinct(names)
    ensures multiset(Gathered(lower, xs, names)) == multiset(Among(xs, names))
  {
    if names == [] {
      AmongNone(xs);
    } else {
      var n := |names| - 1;
      GatheredKeeps(lower, xs, names[..n]);
      SortedIs(lower, Of(xs, names[n]));
      AmongSplits(xs, names[..n], names[n]);
      assert names == names[..n] + [names[n]];
    }
  }

  lemma OrderIsDistinct(names: seq<string>)
    requires NamesInOrder(names)
    ensures Distinct(names)
  {
    forall i, j | 0 <= i < j < |names| ensures names[i] != names[j] {
      PrecedesOrders(names[i], names[j], names[i]);
    }
  }

  lemma GatheredIsAll(lower: string -> string, xs: seq<Outline>)
    ensures multiset(Gathered(lower, xs, NamesSorted(Categories(xs)))) == multiset(xs)
  {
    var names := NamesSorted(Categories(xs));
    CategoriesAre(xs);
    NamesAreSorted(Categories(xs));
    OrderIsDistinct(names);
    GatheredKeeps(lower, xs, names);
    AmongAll(xs, names);
  }

  ghost predicate Rearranged(xs: seq<Outline>, ys: seq<Outline>) {
    multiset(xs) == multiset(ys)
  }

  /** Every subscription comes back once for each time it went out, and no other does. */
  lemma NothingLost(lower: string -> string, xs: seq<Outline>)
    ensures exists ys :: Rearranged(xs, ys) && Normal(lower, xs) == AllSettled(ys)
  {
    GatheredIsAll(lower, xs);
    var ys := Gathered(lower, xs, NamesSorted(Categories(xs)));
    assert Rearranged(xs, ys);
  }

  // -------------------------------------------------------------------------------------
  // Trips after the first.

  ghost predicate Titled(xs: seq<Outline>) {
    forall x :: x in xs ==> x.title != "" && !x.needsDiscovery
  }

  lemma SettledAlready(xs: seq<Outline>)
    requires Titled(xs)
    ensures AllSettled(xs) == xs
  {
    forall i | 0 <= i < |xs| ensures AllSettled(xs)[i] == xs[i] {
      assert xs[i] in xs;
    }
  }

  /** A list in sections: each of these categories in turn, with something in it, and sorted. */
  ghost predicate InSections(lower: string -> string, xs: seq<Outline>, names: seq<string>)
    decreases |names|
  {
    if names == [] then xs == []
    else
      exists k :: 0 <= k < |xs| && InSections(lower, xs[..k], names[..|names| - 1])
        && InOrder(lower, xs[k..]) && forall x :: x in xs[k..] ==> x.category == names[|names| - 1]
  }

  lemma {:induction false} OfJoins(a: seq<Outline>, b: seq<Outline>, category: string)
    ensures Of(a + b, category) == Of(a, category) + Of(b, category)
    decreases |b|
  {
    if b == [] {
      assert a + b == a;
    } else {
      OfJoins(a, b[..|b| - 1], category);
      assert (a + b)[..|a + b| - 1] == a + b[..|b| - 1];
    }
  }

  lemma {:induction false} OfOne(xs: seq<Outline>, category: string)
    requires forall x :: x in xs ==> x.category == category
    ensures forall c :: Of(xs, c) == if c == category then xs else []
  {
    if xs != [] {
      var n := |xs| - 1;
      assert xs[n] in xs && forall x :: x in xs[..n] ==> x in xs;
      OfOne(xs[..n], category);
      assert xs == xs[..n] + [xs[n]];
    }
  }

  lemma {:induction false} CategoriesJoin(a: seq<Outline>, b: seq<Outline>, category: string)
    requires b != [] && category !in Categories(a) && forall x :: x in b ==> x.category == category
    ensures Categories(a + b) == Categories(a) + [category]
    decreases |b|
  {
    var n := |b| - 1;
    assert (a + b)[..|a + b| - 1] == a + b[..n];
    assert b[n] in b && forall x :: x in b[..n] ==> x in b;
    if n > 0 {
      CategoriesJoin(a, b[..n], category);
    } else {
      assert a + b[..n] == a;
    }
  }

  /** A list already in its sections is read as those categories, and gathering it again leaves
      it as it is. */
  lemma {:induction false} SectionsAreKept(lower: string -> string, xs: seq<Outline>, names: seq<string>)
    requires NamesInOrder(names) && InSections(lower, xs, names)
    ensures Categories(xs) == names && Gathered(lower, xs, names) == xs
    decreases |names|
  {
    if names != [] {
      var init, name := names[..|names| - 1], names[|names| - 1];
      var a, b := LastSection(lower, xs, names);
      SectionsAreKept(lower, a, init);
      OrderIsDistinct(names);
      SectionJoins(lower, a, b, name, init);
      LastOff([], names);
    }
  }

  lemma LastSection(lower: string -> string, xs: seq<Outline>, names: seq<string>) returns (a: seq<Outline>, b: seq<Outline>)
    requires names != [] && InSections(lower, xs, names)
    ensures xs == a + b && InSections(lower, a, names[..|names| - 1])
    ensures b != [] && InOrder(lower, b) && forall x :: x in b ==> x.category == names[|names| - 1]
  {
    var k :| 0 <= k < |xs| && InSections(lower, xs[..k], names[..|names| - 1])
      && InOrder(lower, xs[k..]) && forall x :: x in xs[k..] ==> x.category == names[|names| - 1];
    a, b := xs[..k], xs[k..];
  }

  lemma SectionJoins(lower: string -> string, a: seq<Outline>, b: seq<Outline>, name: string, names: seq<string>)
    requires Categories(a) == names && Gathered(lower, a, names) == a && name !in names
    requires b != [] && InOrder(lower, b) && forall x :: x in b ==> x.category == name
    ensures Categories(a + b) == names + [name] && Gathered(lower, a + b, names + [name]) == a + b
  {
    CategoriesJoin(a, b, name);
    CategoriesAre(a);
    OfJoins(a, b, name);
    OfOne(b, name);
    assert Of(a + b, name) == b;
    SortedAlready(lower, b);
    SameGathered(lower, a, b, name, names);
    assert (names + [name])[..|names|] == names;
  }

  /** Outlines of another category do not change what is gathered for these. */
  lemma {:induction false} SameGathered(lower: string -> string, a: seq<Outline>, b: seq<Outline>, category: string, names: seq<string>)
    requires category !in names && forall x :: x in b ==> x.category == category
    ensures Gathered(lower, a + b, names) == Gathered(lower, a, names)
  {
    if names != [] {
      var n := |names| - 1;
      assert names[n] in names && forall c :: c in names[..n] ==> c in names;
      SameGathered(lower, a, b, category, names[..n]);
      OfJoins(a, b, names[n]);
      OfOne(b, category);
      assert Of(a + b, names[n]) == Of(a, names[n]);
    }
  }

  lemma {:induction false} GatheredInSections(lower: string -> string, xs: seq<Outline>, names: seq<string>)
    requires forall c :: c in names ==> Of(xs, c) != []
    ensures InSections(lower, Gathered(lower, xs, names), names)
  {
    if names != [] {
      var n := |names| - 1;
      var before, group := Gathered(lower, xs, names[..n]), Sorted(lower, Of(xs, names[n]));
      assert names[n] in names && forall c :: c in names[..n] ==> c in names;
      GatheredInSections(lower, xs, names[..n]);
      SortedOf(lower, xs, names[n]);
      SortedIs(lower, Of(xs, names[n]));
      var all := Gathered(lower, xs, names);
      assert all[..|before|] == before && all[|before|..] == group;
    }
  }

  lemma SettledParts(xs: seq<Outline>, k: nat)
    requires k <= |xs|
    ensures AllSettled(xs)[..k] == AllSettled(xs[..k]) && AllSettled(xs)[k..] == AllSettled(xs[k..])
  {
  }

  /** Settling leaves the sections as they are, as long as no title is made up. */
  lemma {:induction false} SettledInSections(lower: string -> string, xs: seq<Outline>, names: seq<string>)
    requires InSections(lower, xs, names) && forall i :: 0 <= i < |xs| ==> xs[i].title != ""
    ensures InSections(lower, AllSettled(xs), names)
    decreases |names|
  {
    if names != [] {
      var n := |names| - 1;
      var k :| 0 <= k < |xs| && InSections(lower, xs[..k], names[..n])
        && InOrder(lower, xs[k..]) && forall x :: x in xs[k..] ==> x.category == names[n];
      SettledInSections(lower, xs[..k], names[..n]);
      SettledParts(xs, k);
      SettledInOrder(lower, xs[k..], names[n]);
      assert InSections(lower, AllSettled(xs)[..k], names[..n]);
    }
  }

  lemma SettledInOrder(lower: string -> string, xs: seq<Outline>, category: string)
    requires InOrder(lower, xs) && forall x :: x in xs ==> x.category == category
    requires forall i :: 0 <= i < |xs| ==> xs[i].title != ""
    ensures InOrder(lower, AllSettled(xs)) && forall x :: x in AllSettled(xs) ==> x.category == category
  {
    var ys := AllSettled(xs);
    forall i, j | 0 <= i < j < |ys| ensures !Before(lower, ys[j], ys[i]) {
      assert !Before(lower, xs[j], xs[i]);
    }
    forall i | 0 <= i < |ys| ensures ys[i].category == category {
      assert xs[i] in xs;
    }
  }

  lemma NormalInSections(lower: string -> string, xs: seq<Outline>)
    requires forall x :: x in xs ==> x.title != ""
    ensures InSections(lower, Normal(lower, xs), NamesSorted(Categories(xs)))
  {
    var names := NamesSorted(Categories(xs));
    var ys := Gathered(lower, xs, names);
    CategoriesAre(xs);
    NamesAreSorted(Categories(xs));
    GatheredInSections(lower, xs, names);
    GatheredIsAll(lower, xs);
    forall i | 0 <= i < |ys| ensures ys[i].title != "" {
      assert ys[i] in multiset(ys) && ys[i] in multiset(xs);
    }
    SettledInSections(lower, ys, names);
  }

  lemma NormalIsTitled(lower: string -> string, xs: seq<Outline>)
    requires forall x :: x in xs ==> x.url != ""
    ensures Titled(Normal(lower, xs))
  {
    var ys := Gathered(lower, xs, NamesSorted(Categories(xs)));
    GatheredIsAll(lower, xs);
    forall x | x in ys ensures x.url != "" {
      assert x in multiset(ys) && x in multiset(xs);
    }
    AllSettledAre(ys);
  }

  /** When every title is there, one trip leaves nothing for another to do. */
  lemma OneTripIsEnough(lower: string -> string, xs: seq<Outline>)
    requires forall x :: x in xs ==> x.title != "" && x.url != ""
    ensures Normal(lower, Normal(lower, xs)) == Normal(lower, xs)
  {
    var names, once := NamesSorted(Categories(xs)), Normal(lower, xs);
    CategoriesAre(xs);
    NamesAreSorted(Categories(xs));
    NormalInSections(lower, xs);
    SectionsAreKept(lower, once, names);
    NamesSortedAlready(names);
    NormalIsTitled(lower, xs);
    SettledAlready(once);
  }

  lemma AllSettledAre(xs: seq<Outline>)
    requires forall x :: x in xs ==> x.url != ""
    ensures Titled(AllSettled(xs))
  {
    forall i | 0 <= i < |xs| ensures AllSettled(xs)[i].title != "" {
      assert xs[i] in xs;
    }
  }

  /** Two trips always reach a list that every trip after leaves as it is. */
  lemma TwoTripsAreEnough(lower: string -> string, xs: seq<Outline>)
    requires AllClean(xs)
    ensures var twice := Normal(lower, Normal(lower, xs)); Normal(lower, twice) == twice
  {
    NormalIsTitled(lower, xs);
    UrlsStay(lower, xs);
    OneTripIsEnough(lower, Normal(lower, xs));
  }

  lemma UrlsStay(lower: string -> string, xs: seq<Outline>)
    requires forall x :: x in xs ==> x.url != ""
    ensures forall x :: x in Normal(lower, xs) ==> x.url != ""
  {
    var ys := Gathered(lower, xs, NamesSorted(Categories(xs)));
    GatheredIsAll(lower, xs);
    forall i | 0 <= i < |ys| ensures ys[i].url != "" {
      assert ys[i] in multiset(ys) && ys[i] in multiset(xs);
    }
  }
}
