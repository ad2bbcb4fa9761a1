/** `subscriptions/opml.py`: where in a tree of outlines each subscription is read, and where it is
    written. */
module OpmlShape {
  import opened Normalise
  import opened Opml

  // -------------------------------------------------------------------------------------
  // What is found, by where it is.

  /** From the top of a tree down to one of its outlines, each inside the one before. */
  ghost predicate Descends(nodes: seq<Node>, trail: seq<Node>)
    decreases |trail|
  {
    trail != [] && trail[0] in nodes && (|trail| > 1 ==> Descends(trail[0].children, trail[1..]))
  }

  /** An outline's feed: either spelling of the attribute, the proper one first. */
  ghost function FeedIn(n: Node): string {
    if n.xmlUrl == "" then Stripped(n.xmlurl) else Stripped(n.xmlUrl)
  }

  /** Its title, or its text where it has none. */
  ghost function TitleIn(n: Node): string {
    if n.title == "" then Stripped(n.text) else Stripped(n.title)
  }

  /** The title nearest above, or the category it was all found under. */
  ghost function Nearest(above: seq<Node>, category: string): string {
    if above == [] then category
    else Nearest(above[1..], if TitleIn(above[0]) == "" then category else TitleIn(above[0]))
  }

  /** An outline with a feed is that feed; one with neither feed nor anything inside it is a site
      to look for one on. */
  ghost predicate Reads(n: Node, category: string, x: Outline) {
    || (FeedIn(n) != "" && x == Outline(FeedIn(n), TitleIn(n), category, Stripped(n.htmlUrl), false))
    || (FeedIn(n) == "" && n.children == [] && Stripped(n.htmlUrl) != ""
        && x == Outline(Stripped(n.htmlUrl), TitleIn(n), category, "", true))
  }

  /** It is read at the end of a trail through outlines that are no feeds, under the nearest title. */
  ghost predicate ReadAt(nodes: seq<Node>, trail: seq<Node>, category: string, x: Outline) {
    && Descends(nodes, trail)
    && (forall i :: 0 <= i < |trail| - 1 ==> FeedIn(trail[i]) == "")
    && Reads(trail[|trail| - 1], Nearest(trail[..|trail| - 1], category), x)
  }

  lemma TrailIn(nodes: seq<Node>, n: Node, trail: seq<Node>, category: string, x: Outline)
    requires n in nodes && UrlOf(n) == "" && ReadAt(n.children, trail, Or(TitleOf(n), category), x)
    ensures ReadAt(nodes, [n] + trail, category, x)
  {
    var longer := [n] + trail;
    assert longer[1..] == trail && longer[..|longer| - 1] == [n] + trail[..|trail| - 1];
    assert ([n] + trail[..|trail| - 1])[1..] == trail[..|trail| - 1];
    forall i | 0 <= i < |longer| - 1 ensures UrlOf(longer[i]) == "" {
      if i > 0 { assert longer[i] == trail[i - 1]; }
    }
  }

  lemma LastsOff(trail: seq<Node>)
    requires |trail| > 1
    ensures trail[..|trail| - 1][1..] == trail[1..][..|trail| - 2]
    ensures trail[1..][|trail| - 2] == trail[|trail| - 1] && trail[..|trail| - 1] != [] && trail[..|trail| - 1][0] == trail[0]
  {
  }

  lemma TrailOut(nodes: seq<Node>, trail: seq<Node>, category: string, x: Outline)
    requires ReadAt(nodes, trail, category, x) && |trail| > 1
    ensures trail[0] in nodes && UrlOf(trail[0]) == "" && trail[0].children != []
    ensures ReadAt(trail[0].children, trail[1..], Or(TitleOf(trail[0]), category), x)
  {
    var rest := trail[1..];
    LastsOff(trail);
    assert Descends(trail[0].children, rest);
    assert rest[0] in trail[0].children;
    forall i | 0 <= i < |rest| - 1 ensures UrlOf(rest[i]) == "" {
      assert rest[i] == trail[i + 1];
    }
  }

  /** What is found in a tree is what is read at the end of some trail through it, each under the
      nearest title above: an outline with no title leaves the category as it was. */
  lemma {:induction false} FoundIs(nodes: seq<Node>, category: string, x: Outline)
    ensures x in Found(nodes, category) <==> exists trail :: ReadAt(nodes, trail, category, x)
    decreases nodes, 1
  {
    if x in Found(nodes, category) {
      var n := FoundSomewhere(nodes, category, x);
      FoundAtIs(n, category, x);
      var trail :| Trailed(n, trail, category, x);
      InThese(nodes, n, trail, category, x);
    }
    if trail :| ReadAt(nodes, trail, category, x) {
      var n := trail[0];
      assert n in nodes && Trailed(n, trail, category, x);
      FoundAtIs(n, category, x);
      FoundThere(nodes, n, category, x);
    }
  }

  /** A trail that starts here. */
  ghost predicate Trailed(n: Node, trail: seq<Node>, category: string, x: Outline) {
    ReadAt([n], trail, category, x)
  }

  lemma InThese(nodes: seq<Node>, n: Node, trail: seq<Node>, category: string, x: Outline)
    requires n in nodes && Trailed(n, trail, category, x)
    ensures ReadAt(nodes, trail, category, x)
  {
    assert trail[0] == n;
  }

  lemma {:induction false} FoundAtIs(n: Node, category: string, x: Outline)
    ensures x in FoundAt(n, category) <==> exists trail :: Trailed(n, trail, category, x)
    decreases n, 0
  {
    if UrlOf(n) == "" && n.children != [] {
      FoundIs(n.children, Or(TitleOf(n), category), x);
      if trail :| ReadAt(n.children, trail, Or(TitleOf(n), category), x) {
        TrailIn([n], n, trail, category, x);
        assert Trailed(n, [n] + trail, category, x);
      }
      if trail :| Trailed(n, trail, category, x) {
        assert trail[0] == n;
        if |trail| > 1 { TrailOut([n], trail, category, x); }
      }
    } else {
      if x in FoundAt(n, category) {
        assert [n][..0] == [];
        assert Trailed(n, [n], category, x);
      }
      if trail :| Trailed(n, trail, category, x) {
        assert trail[0] == n;
        if |trail| > 1 { TrailOut([n], trail, category, x); } else { assert trail[..0] == []; }
      }
    }
  }

  lemma {:induction false} FoundSomewhere(nodes: seq<Node>, category: string, x: Outline) returns (n: Node)
    requires x in Found(nodes, category)
    ensures n in nodes && x in FoundAt(n, category)
  {
    var init, last := nodes[..|nodes| - 1], nodes[|nodes| - 1];
    if x in FoundAt(last, category) { n := last; } else { n := FoundSomewhere(init, category, x); }
  }

  lemma {:induction false} FoundThere(nodes: seq<Node>, n: Node, category: string, x: Outline)
    requires n in nodes && x in FoundAt(n, category)
    ensures x in Found(nodes, category)
  {
    var init, last := nodes[..|nodes| - 1], nodes[|nodes| - 1];
    assert nodes == init + [last];
    if n != last { FoundThere(init, n, category, x); }
  }

  // -------------------------------------------------------------------------------------
  // What is written, by what it holds.

  /** A subscription as it is written: its feed, its site, and its title under both names, the feed
      standing in where it has none. */
  ghost predicate IsLeaf(n: Node, x: Outline) {
    && n.xmlUrl == x.url && n.xmlurl == "" && n.htmlUrl == x.siteUrl && n.children == []
    && n.title == n.text && n.title == if x.title == "" then x.url else x.title
  }

  /** One category as it is written: an outline of that name under both, no feed of its own, and in it
      each of its subscriptions and nothing else. */
  ghost predicate IsCategory(n: Node, xs: seq<Outline>, category: string) {
    && n.title == category && n.text == category && n.xmlUrl == "" && n.xmlurl == "" && n.htmlUrl == ""
    && AreOf(n.children, xs, category)
  }

  /** These leaves are the subscriptions of one category. */
  ghost predicate AreOf(leaves: seq<Node>, xs: seq<Outline>, category: string) {
    && (forall leaf :: leaf in leaves ==> exists x :: x in xs && x.category == category && IsLeaf(leaf, x))
    && (forall x :: x in xs && x.category == category ==> exists leaf :: leaf in leaves && IsLeaf(leaf, x))
  }

  lemma {:induction false} LeavesAre(xs: seq<Outline>)
    ensures forall leaf :: leaf in Leaves(xs) ==> exists x :: x in xs && IsLeaf(leaf, x)
    ensures forall x :: x in xs ==> exists leaf :: leaf in Leaves(xs) && IsLeaf(leaf, x)
  {
    if xs != [] {
      var init, last := xs[..|xs| - 1], xs[|xs| - 1];
      assert xs == init + [last];
      LeavesAre(init);
      assert IsLeaf(Leaf(last), last) && Leaf(last) in Leaves(xs);
    }
  }

  lemma GroupLeavesAre(lower: string -> string, xs: seq<Outline>, category: string)
    ensures AreOf(Leaves(Sorted(lower, Of(xs, category))), xs, category)
  {
    SortedOf(lower, xs, category);
    LeavesAre(Sorted(lower, Of(xs, category)));
  }

  /** What stands at the top of what is written: subscriptions of no category, and categories. */
  ghost predicate AtTop(n: Node, xs: seq<Outline>, names: seq<string>) {
    || (exists x :: x in xs && x.category == "" && "" in names && IsLeaf(n, x))
    || (exists c :: c in names && c != "" && IsCategory(n, xs, c))
  }

  /** A subscription is written here. */
  ghost predicate WrittenIn(nodes: seq<Node>, xs: seq<Outline>, x: Outline) {
    exists n :: n in nodes && if x.category == "" then IsLeaf(n, x) else IsCategory(n, xs, x.category)
  }

  lemma {:induction false} SectionsAre(lower: string -> string, xs: seq<Outline>, names: seq<string>)
    ensures forall n :: n in Sections(lower, xs, names) ==> AtTop(n, xs, names)
    ensures forall x :: x in xs && x.category in names ==> WrittenIn(Sections(lower, xs, names), xs, x)
  {
    if names != [] {
      var init, c := names[..|names| - 1], names[|names| - 1];
      var leaves := Leaves(Sorted(lower, Of(xs, c)));
      assert names == init + [c];
      SectionsAre(lower, xs, init);
      GroupLeavesAre(lower, xs, c);
      SectionIs(xs, c, leaves);
      OneMoreSection(xs, init, c, Sections(lower, xs, init), Section(c, leaves));
    }
  }

  lemma {:induction false} OneMoreSection(xs: seq<Outline>, init: seq<string>, c: string, before: seq<Node>, section: seq<Node>)
    requires forall n :: n in before ==> AtTop(n, xs, init)
    requires forall x :: x in xs && x.category in init ==> WrittenIn(before, xs, x)
    requires forall n :: n in section ==> AtTop(n, xs, [c])
    requires forall x :: x in xs && x.category == c ==> WrittenIn(section, xs, x)
    ensures forall n :: n in before + section ==> AtTop(n, xs, init + [c])
    ensures forall x :: x in xs && x.category in init + [c] ==> WrittenIn(before + section, xs, x)
  {
    forall n | n in before + section ensures AtTop(n, xs, init + [c]) {
      if n in before { StillAtTop(n, xs, init, init + [c]); } else { StillAtTop(n, xs, [c], init + [c]); }
    }
    forall x | x in xs && x.category in init + [c] ensures WrittenIn(before + section, xs, x) {
      if x.category in init { StillWritten(before, before + section, xs, x); } else { StillWritten(section, before + section, xs, x); }
    }
  }

  lemma {:induction false} StillAtTop(n: Node, xs: seq<Outline>, some: seq<string>, names: seq<string>)
    requires AtTop(n, xs, some) && forall c :: c in some ==> c in names
    ensures AtTop(n, xs, names)
  {
  }

  lemma {:induction false} StillWritten(some: seq<Node>, nodes: seq<Node>, xs: seq<Outline>, x: Outline)
    requires WrittenIn(some, xs, x) && forall n :: n in some ==> n in nodes
    ensures WrittenIn(nodes, xs, x)
  {
  }

  lemma {:induction false} SectionIs(xs: seq<Outline>, category: string, leaves: seq<Node>)
    requires AreOf(leaves, xs, category)
    ensures forall n :: n in Section(category, leaves) ==> AtTop(n, xs, [category])
    ensures forall x :: x in xs && x.category == category ==> WrittenIn(Section(category, leaves), xs, x)
  {
    if category != "" {
      var n := Section(category, leaves)[0];
      assert IsCategory(n, xs, category) && n in Section(category, leaves) && category in [category];
    }
  }

  /** Whatever is written stands where a reader would look for it: subscriptions of no category at the
      top, and each of the others in the outline of its category. */
  lemma RenderedIs(lower: string -> string, xs: seq<Outline>)
    ensures forall n :: n in Rendered(lower, xs) ==>
      || (exists x :: x in xs && x.category == "" && IsLeaf(n, x))
      || (exists x :: x in xs && x.category != "" && IsCategory(n, xs, x.category))
    ensures forall x :: x in xs ==> WrittenIn(Rendered(lower, xs), xs, x)
  {
    var names := NamesSorted(Categories(xs));
    CategoriesAre(xs);
    NamesAreSorted(Categories(xs));
    SectionsAre(lower, xs, names);
    forall c | c in names ensures exists x :: x in xs && x.category == c {
      OfIs(xs, c);
      var of := Of(xs, c);
      assert of[0] in of;
    }
  }
}
