/** `subscriptions/opml.py`: what an export keeps of the order the subscriptions were read in. */
module OpmlOrder {
  import opened Opml

  /** What a category is sorted by. */
  datatype Key = Key(title: string, url: string)

  function KeyOf(lower: string -> string, x: Outline): Key {
    Key(lower(x.title), x.url)
  }

  predicate Tied(lower: string -> string, x: Outline, y: Outline) {
    x.category == y.category && KeyOf(lower, x) == KeyOf(lower, y)
  }

  function Keys(lower: string -> string, xs: seq<Outline>): seq<Key> {
    if xs == [] then [] else Keys(lower, xs[..|xs| - 1]) + [KeyOf(lower, xs[|xs| - 1])]
  }

  lemma {:induction false} KeysAt(lower: string -> string, xs: seq<Outline>)
    ensures |Keys(lower, xs)| == |xs| && forall i :: 0 <= i < |xs| ==> Keys(lower, xs)[i] == KeyOf(lower, xs[i])
  {
    if xs != [] { KeysAt(lower, xs[..|xs| - 1]); }
  }

  lemma {:induction false} KeysJoin(lower: string -> string, a: seq<Outline>, b: seq<Outline>)
    ensures Keys(lower, a + b) == Keys(lower, a) + Keys(lower, b)
    decreases |b|
  {
    if b == [] {
      assert a + b == a;
    } else {
      var n := |b| - 1;
      KeysJoin(lower, a, b[..n]);
      assert (a + b)[..|a + b| - 1] == a + b[..n];
    }
  }

  function Without(xs: seq<Outline>, j: nat): seq<Outline>
    requires j < |xs|
  {
    xs[..j] + xs[j + 1..]
  }

  lemma {:induction false} WithoutOne(xs: seq<Outline>, j: nat)
    requires j < |xs|
    ensures multiset(xs) == multiset(Without(xs, j)) + multiset{xs[j]}
  {
    assert xs == xs[..j] + ([xs[j]] + xs[j + 1..]);
  }

  lemma {:induction false} KeysWithoutOne(lower: string -> string, xs: seq<Outline>, j: nat)
    requires j < |xs|
    ensures multiset(Keys(lower, xs)) == multiset(Keys(lower, Without(xs, j))) + multiset{KeyOf(lower, xs[j])}
  {
    var a, x, b := xs[..j], xs[j], xs[j + 1..];
    assert xs == (a + [x]) + b;
    KeysJoin(lower, a + [x], b);
    KeysStep(lower, a, x);
    KeysJoin(lower, a, b);
    OneApart(Keys(lower, a), KeyOf(lower, x), Keys(lower, b));
  }

  lemma {:induction false} KeysStep(lower: string -> string, xs: seq<Outline>, x: Outline)
    ensures Keys(lower, xs + [x]) == Keys(lower, xs) + [KeyOf(lower, x)]
  {
    assert (xs + [x])[..|xs|] == xs;
  }

  lemma {:induction false} OneApart<T>(a: seq<T>, x: T, b: seq<T>)
    ensures multiset((a + [x]) + b) == multiset(a + b) + multiset{x}
  {
  }

  /** The place in a rearrangement of what comes last. */
  lemma {:induction false} WhereLast(xs: seq<Outline>, ys: seq<Outline>) returns (j: nat)
    requires xs != [] && Rearranged(xs, ys)
    ensures j < |ys| && ys[j] == xs[|xs| - 1] && Rearranged(xs[..|xs| - 1], Without(ys, j))
  {
    var n := |xs| - 1;
    assert xs[n] in multiset(xs) && xs[n] in multiset(ys);
    j :| 0 <= j < |ys| && ys[j] == xs[n];
    WithoutOne(xs, n);
    WithoutOne(ys, j);
    assert Without(xs, n) == xs[..n];
    LessOne(multiset(xs[..n]), multiset(Without(ys, j)), xs[n]);
  }

  lemma {:induction false} LessOne<T>(a: multiset<T>, b: multiset<T>, x: T)
    requires a + multiset{x} == b + multiset{x}
    ensures a == b
  {
    assert a == (a + multiset{x}) - multiset{x};
    assert b == (b + multiset{x}) - multiset{x};
  }

  lemma {:induction false} KeysRearranged(lower: string -> string, xs: seq<Outline>, ys: seq<Outline>)
    requires Rearranged(xs, ys)
    ensures multiset(Keys(lower, xs)) == multiset(Keys(lower, ys))
  {
    if xs == [] {
      assert |multiset(ys)| == 0;
    } else {
      var n := |xs| - 1;
      var j := WhereLast(xs, ys);
      KeysRearranged(lower, xs[..n], Without(ys, j));
      KeysWithoutOne(lower, ys, j);
    }
  }

  predicate KeyBefore(a: Key, b: Key) {
    Precedes(a.title, b.title) || (a.title == b.title && Precedes(a.url, b.url))
  }

  lemma {:induction false} KeyBeforeIs(lower: string -> string, x: Outline, y: Outline)
    ensures KeyBefore(KeyOf(lower, x), KeyOf(lower, y)) == Before(lower, x, y)
  {
  }

  lemma {:induction false} KeysTie(a: Key, b: Key)
    requires !KeyBefore(a, b) && !KeyBefore(b, a)
    ensures a == b
  {
    PrecedesOrders(a.title, b.title, a.title);
    PrecedesOrders(a.url, b.url, a.url);
  }

  ghost predicate KeysInOrder(keys: seq<Key>) {
    forall i, j :: 0 <= i < j < |keys| ==> !KeyBefore(keys[j], keys[i])
  }

  lemma {:induction false} LastIsGreatest(keys: seq<Key>, k: Key)
    requires KeysInOrder(keys) && k in multiset(keys)
    ensures !KeyBefore(keys[|keys| - 1], k)
  {
    var i :| 0 <= i < |keys| && keys[i] == k;
    PrecedesOrders(k.title, k.title, k.title);
    PrecedesOrders(k.url, k.url, k.url);
  }

  lemma {:induction false} InitInOrder(keys: seq<Key>)
    requires KeysInOrder(keys) && keys != []
    ensures KeysInOrder(keys[..|keys| - 1])
  {
  }

  lemma {:induction false} InitsRearranged<T>(a: seq<T>, b: seq<T>)
    requires a != [] && b != [] && a[|a| - 1] == b[|b| - 1] && multiset(a) == multiset(b)
    ensures multiset(a[..|a| - 1]) == multiset(b[..|b| - 1])
  {
    var m, n := |a| - 1, |b| - 1;
    assert a == a[..m] + [a[m]] && b == b[..n] + [b[n]];
    LessOne(multiset(a[..m]), multiset(b[..n]), a[m]);
  }

  /** Keys in order are told by how often each is there. */
  lemma {:induction false} SameKeys(a: seq<Key>, b: seq<Key>)
    requires KeysInOrder(a) && KeysInOrder(b) && multiset(a) == multiset(b)
    ensures a == b
  {
    assert |multiset(a)| == |a| && |multiset(b)| == |b|;
    if a != [] {
      var n := |a| - 1;
      assert a[n] in multiset(b) && b[n] in multiset(a);
      LastIsGreatest(a, b[n]);
      LastIsGreatest(b, a[n]);
      KeysTie(a[n], b[n]);
      InitsRearranged(a, b);
      InitInOrder(a);
      InitInOrder(b);
      SameKeys(a[..n], b[..n]);
      LastOff([], a);
      LastOff([], b);
    }
  }

  /** Sorted, two rearrangements of one list have the same keys at the same places. */
  lemma {:induction false} SortedKeys(lower: string -> string, xs: seq<Outline>, ys: seq<Outline>)
    requires Rearranged(xs, ys)
    ensures Keys(lower, Sorted(lower, xs)) == Keys(lower, Sorted(lower, ys))
  {
    var a, b := Sorted(lower, xs), Sorted(lower, ys);
    SortedIs(lower, xs);
    SortedIs(lower, ys);
    KeysRearranged(lower, a, b);
    InOrderKeys(lower, a);
    InOrderKeys(lower, b);
    SameKeys(Keys(lower, a), Keys(lower, b));
  }

  lemma {:induction false} InOrderKeys(lower: string -> string, xs: seq<Outline>)
    requires InOrder(lower, xs)
    ensures KeysInOrder(Keys(lower, xs))
  {
    KeysAt(lower, xs);
    forall i, j | 0 <= i < j < |xs| ensures !KeyBefore(Keys(lower, xs)[j], Keys(lower, xs)[i]) {
      KeyBeforeIs(lower, xs[j], xs[i]);
    }
  }

  // -------------------------------------------------------------------------------------
  // The sections of a rearranged list.

  lemma {:induction false} OfCount(xs: seq<Outline>, category: string, x: Outline)
    ensures multiset(Of(xs, category))[x] == if x.category == category then multiset(xs)[x] else 0
  {
    if xs != [] {
      var n := |xs| - 1;
      OfCount(xs[..n], category, x);
      assert xs == xs[..n] + [xs[n]];
    }
  }

  lemma {:induction false} OfRearranged(xs: seq<Outline>, ys: seq<Outline>, category: string)
    requires Rearranged(xs, ys)
    ensures Rearranged(Of(xs, category), Of(ys, category))
  {
    forall x ensures multiset(Of(xs, category))[x] == multiset(Of(ys, category))[x] {
      OfCount(xs, category, x);
      OfCount(ys, category, x);
    }
  }

  lemma {:induction false} SameNames(a: seq<string>, b: seq<string>)
    requires NamesInOrder(a) && NamesInOrder(b) && forall c :: c in a <==> c in b
    ensures a == b
  {
    if a == [] {
      NoNames(b);
    } else if b == [] {
      NoNames(a);
    } else {
      var m, n := |a| - 1, |b| - 1;
      LastName(a, b[n]);
      LastName(b, a[m]);
      PrecedesOrders(a[m], b[n], a[m]);
      assert a[m] == b[n];
      OrderIsDistinct(a);
      OrderIsDistinct(b);
      forall c ensures c in a[..m] <==> c in b[..n] {
        InitNames(a, c);
        InitNames(b, c);
      }
      SameNames(a[..m], b[..n]);
      assert a == a[..m] + [a[m]] && b == b[..n] + [b[n]];
    }
  }

  lemma {:induction false} NoNames(names: seq<string>)
    ensures names == [] <==> forall c :: c !in names
  {
    if names != [] { assert names[0] in names; }
  }

  lemma {:induction false} LastName(names: seq<string>, c: string)
    requires NamesInOrder(names) && c in names
    ensures c == names[|names| - 1] || Precedes(c, names[|names| - 1])
  {
  }

  lemma {:induction false} InitNames(names: seq<string>, c: string)
    requires names != [] && Distinct(names)
    ensures c in names[..|names| - 1] <==> c in names && c != names[|names| - 1]
  {
    assert names == names[..|names| - 1] + [names[|names| - 1]];
  }

  lemma {:induction false} NamesRearranged(xs: seq<Outline>, ys: seq<Outline>)
    requires Rearranged(xs, ys)
    ensures NamesSorted(Categories(xs)) == NamesSorted(Categories(ys))
  {
    CategoriesAre(xs);
    CategoriesAre(ys);
    NamesAreSorted(Categories(xs));
    NamesAreSorted(Categories(ys));
    forall c ensures c in NamesSorted(Categories(xs)) <==> c in NamesSorted(Categories(ys)) {
      OfRearranged(xs, ys, c);
      assert |multiset(Of(xs, c))| == |Of(xs, c)| && |multiset(Of(ys, c))| == |Of(ys, c)|;
    }
    SameNames(NamesSorted(Categories(xs)), NamesSorted(Categories(ys)));
  }

  /** The leaves of one category, as they are written. */
  function Written(lower: string -> string, xs: seq<Outline>, category: string): seq<Node> {
    Leaves(Sorted(lower, Of(xs, category)))
  }

  lemma {:induction false} WrittenLength(lower: string -> string, xs: seq<Outline>, category: string)
    ensures |Written(lower, xs, category)| == |Of(xs, category)|
  {
    var sorted := Sorted(lower, Of(xs, category));
    SortedIs(lower, Of(xs, category));
    LeavesCount(sorted);
    assert |multiset(sorted)| == |sorted| && |multiset(Of(xs, category))| == |Of(xs, category)|;
  }

  lemma {:induction false} WrittenLengths(lower: string -> string, xs: seq<Outline>, ys: seq<Outline>, category: string)
    requires Rearranged(xs, ys)
    ensures |Written(lower, xs, category)| == |Written(lower, ys, category)|
  {
    OfRearranged(xs, ys, category);
    assert |multiset(Of(xs, category))| == |Of(xs, category)| && |multiset(Of(ys, category))| == |Of(ys, category)|;
    WrittenLength(lower, xs, category);
    WrittenLength(lower, ys, category);
  }

  lemma {:induction false} SectionTells(category: string, a: seq<Node>, b: seq<Node>)
    requires |a| == |b|
    ensures |Section(category, a)| == |Section(category, b)|
    ensures Section(category, a) == Section(category, b) <==> a == b
  {
    if category != "" && a != b {
      assert Section(category, a)[0].children != Section(category, b)[0].children;
    }
  }

  /** The leaves of each of these categories are written the same. */
  ghost predicate AllWritten(lower: string -> string, xs: seq<Outline>, ys: seq<Outline>, names: seq<string>) {
    forall c :: c in names ==> Written(lower, xs, c) == Written(lower, ys, c)
  }

  lemma {:induction false} OneMoreWritten(lower: string -> string, xs: seq<Outline>, ys: seq<Outline>, names: seq<string>)
    requires names != []
    ensures var (init, c) := (names[..|names| - 1], names[|names| - 1]);
      AllWritten(lower, xs, ys, names) <==> AllWritten(lower, xs, ys, init) && Written(lower, xs, c) == Written(lower, ys, c)
  {
    var init, c := names[..|names| - 1], names[|names| - 1];
    assert names == init + [c];
    assert c in names;
  }

  /** Sections of the same sizes laid end to end agree exactly when each does. */
  lemma {:induction false} SectionsTell(lower: string -> string, xs: seq<Outline>, ys: seq<Outline>, names: seq<string>)
    requires Rearranged(xs, ys)
    ensures |Sections(lower, xs, names)| == |Sections(lower, ys, names)|
    ensures Sections(lower, xs, names) == Sections(lower, ys, names) <==> AllWritten(lower, xs, ys, names)
  {
    if names != [] {
      var n := |names| - 1;
      var init, c := names[..n], names[n];
      SectionsTell(lower, xs, ys, init);
      WrittenLengths(lower, xs, ys, c);
      SectionTells(c, Written(lower, xs, c), Written(lower, ys, c));
      JoinsTell(Sections(lower, xs, init), Section(c, Written(lower, xs, c)), Sections(lower, ys, init), Section(c, Written(lower, ys, c)));
      OneMoreWritten(lower, xs, ys, names);
    }
  }

  lemma {:induction false} JoinsTell<T>(a: seq<T>, b: seq<T>, a': seq<T>, b': seq<T>)
    requires |a| == |a'| && |b| == |b'|
    ensures a + b == a' + b' <==> a == a' && b == b'
  {
    if a + b == a' + b' {
      assert a == (a + b)[..|a|] && b == (a + b)[|a|..];
      assert a' == (a' + b')[..|a'|] && b' == (a' + b')[|a'|..];
    }
  }

  /** Two rearrangements are written alike exactly when each category's leaves are. */
  lemma {:induction false} RenderedTells(lower: string -> string, xs: seq<Outline>, ys: seq<Outline>)
    requires Rearranged(xs, ys)
    ensures Rendered(lower, xs) == Rendered(lower, ys)
       <==> AllWritten(lower, xs, ys, NamesSorted(Categories(xs)))
  {
    NamesRearranged(xs, ys);
    SectionsTell(lower, xs, ys, NamesSorted(Categories(xs)));
  }

  // -------------------------------------------------------------------------------------
  // Ties keep the order they came in.

  /** Those with one key, in their order. */
  function Group(lower: string -> string, xs: seq<Outline>, k: Key): seq<Outline> {
    if xs == [] then []
    else Group(lower, xs[..|xs| - 1], k) + if KeyOf(lower, xs[|xs| - 1]) == k then [xs[|xs| - 1]] else []
  }

  lemma {:induction false} GroupStep(lower: string -> string, xs: seq<Outline>, x: Outline, k: Key)
    ensures Group(lower, xs + [x], k) == Group(lower, xs, k) + if KeyOf(lower, x) == k then [x] else []
  {
    assert (xs + [x])[..|xs|] == xs;
  }

  lemma {:induction false} InsertedIsStable(lower: string -> string, xs: seq<Outline>, x: Outline, k: Key)
    ensures Group(lower, Inserted(lower, xs, x), k) == Group(lower, xs + [x], k)
  {
    if xs != [] && Before(lower, x, xs[|xs| - 1]) {
      var init, last := xs[..|xs| - 1], xs[|xs| - 1];
      assert xs == init + [last];
      InsertedIsStable(lower, init, x, k);
      GroupStep(lower, Inserted(lower, init, x), last, k);
      GroupStep(lower, init, x, k);
      GroupStep(lower, init, last, k);
      GroupStep(lower, xs, x, k);
      BeforeOrders(lower, x, last, x);
    }
  }

  lemma {:induction false} SortedIsStable(lower: string -> string, xs: seq<Outline>, k: Key)
    ensures Group(lower, Sorted(lower, xs), k) == Group(lower, xs, k)
  {
    if xs != [] {
      var init, last := xs[..|xs| - 1], xs[|xs| - 1];
      assert xs == init + [last];
      SortedIsStable(lower, init, k);
      InsertedIsStable(lower, Sorted(lower, init), last, k);
      GroupStep(lower, Sorted(lower, init), last, k);
      GroupStep(lower, init, last, k);
    }
  }

  lemma {:induction false} LeavesJoin(a: seq<Outline>, b: seq<Outline>)
    ensures Leaves(a + b) == Leaves(a) + Leaves(b)
    decreases |b|
  {
    if b == [] {
      assert a + b == a;
    } else {
      var n := |b| - 1;
      LeavesJoin(a, b[..n]);
      assert (a + b)[..|a + b| - 1] == a + b[..n];
    }
  }

  lemma {:induction false} LeavesAt(xs: seq<Outline>)
    ensures |Leaves(xs)| == |xs| && forall i :: 0 <= i < |xs| ==> Leaves(xs)[i] == Leaf(xs[i])
  {
    if xs != [] { LeavesAt(xs[..|xs| - 1]); }
  }

  /** Lists with the same keys and the same leaves have the same leaves under each key. */
  lemma {:induction false} GroupLeaves(lower: string -> string, a: seq<Outline>, b: seq<Outline>, k: Key)
    requires Keys(lower, a) == Keys(lower, b) && Leaves(a) == Leaves(b)
    ensures Leaves(Group(lower, a, k)) == Leaves(Group(lower, b, k))
  {
    if a != [] && b != [] {
      var m, n := |a| - 1, |b| - 1;
      LastsTell(Keys(lower, a[..m]), KeyOf(lower, a[m]), Keys(lower, b[..n]), KeyOf(lower, b[n]));
      LastsTell(Leaves(a[..m]), Leaf(a[m]), Leaves(b[..n]), Leaf(b[n]));
      GroupLeaves(lower, a[..m], b[..n], k);
      OneMoreLeaf(Group(lower, a[..m], k), a[m]);
      OneMoreLeaf(Group(lower, b[..n], k), b[n]);
    }
  }

  lemma {:induction false} LastsTell<T>(a: seq<T>, x: T, b: seq<T>, y: T)
    ensures a + [x] == b + [y] <==> a == b && x == y
  {
    if a + [x] == b + [y] {
      assert |a| == |a + [x]| - 1 == |b|;
      assert (a + [x])[|a|] == x && (b + [y])[|b|] == y;
      JoinsTell(a, [x], b, [y]);
    }
  }

  lemma {:induction false} OneMoreLeaf(xs: seq<Outline>, x: Outline)
    ensures Leaves(xs + [x]) == Leaves(xs) + [Leaf(x)] && xs + [] == xs
  {
    assert (xs + [x])[..|xs|] == xs;
  }

  /** Those of one category and one key, in the order they came in. */
  function TiedTo(lower: string -> string, xs: seq<Outline>, x: Outline): seq<Outline> {
    Group(lower, Of(xs, x.category), KeyOf(lower, x))
  }

  lemma {:induction false} GroupJoins(lower: string -> string, a: seq<Outline>, b: seq<Outline>, k: Key)
    ensures Group(lower, a + b, k) == Group(lower, a, k) + Group(lower, b, k)
    decreases |b|
  {
    if b == [] {
      assert a + b == a;
    } else {
      var n := |b| - 1;
      GroupJoins(lower, a, b[..n], k);
      assert (a + b)[..|a + b| - 1] == a + b[..n];
    }
  }

  lemma {:induction false} TiedToJoins(lower: string -> string, a: seq<Outline>, b: seq<Outline>, x: Outline)
    ensures TiedTo(lower, a + b, x) == TiedTo(lower, a, x) + TiedTo(lower, b, x)
  {
    OfJoins(a, b, x.category);
    GroupJoins(lower, Of(a, x.category), Of(b, x.category), KeyOf(lower, x));
  }

  lemma {:induction false} TiedToOne(lower: string -> string, x: Outline, y: Outline)
    requires Tied(lower, x, y)
    ensures TiedTo(lower, [y], x) == [y]
  {
    assert [y][..0] == [] && [] + [y] == [y];
    assert Of([y], x.category) == [y];
    GroupStep(lower, [], y, KeyOf(lower, x));
  }

  /** With another in its place, the leaf at the place of one of those tied to it is another's. */
  lemma {:induction false} PlaceTells(lower: string -> string, a: seq<Outline>, x: Outline, b: seq<Outline>, y: Outline, b': seq<Outline>)
    requires Tied(lower, x, y) && Leaf(x) != Leaf(y)
    ensures Leaves(TiedTo(lower, a + [x] + b, x)) != Leaves(TiedTo(lower, a + [y] + b', x))
  {
    var front := TiedTo(lower, a, x);
    TiedToJoins(lower, a + [x], b, x);
    TiedToJoins(lower, a, [x], x);
    TiedToOne(lower, x, x);
    TiedToJoins(lower, a + [y], b', x);
    TiedToJoins(lower, a, [y], x);
    TiedToOne(lower, x, y);
    LeafAfter(front, x, TiedTo(lower, b, x));
    LeafAfter(front, y, TiedTo(lower, b', x));
  }

  lemma {:induction false} LeafAfter(front: seq<Outline>, x: Outline, rest: seq<Outline>)
    ensures |Leaves(front + [x] + rest)| > |front| && Leaves(front + [x] + rest)[|front|] == Leaf(x)
  {
    LeavesAt(front + [x] + rest);
    assert (front + [x] + rest)[|front|] == x;
  }

  /** A category written alike has the same leaves in each tie. */
  lemma {:induction false} WrittenTies(lower: string -> string, xs: seq<Outline>, ys: seq<Outline>, x: Outline)
    requires Rearranged(xs, ys) && Written(lower, xs, x.category) == Written(lower, ys, x.category)
    ensures Leaves(TiedTo(lower, xs, x)) == Leaves(TiedTo(lower, ys, x))
  {
    var a, b, k := Of(xs, x.category), Of(ys, x.category), KeyOf(lower, x);
    OfRearranged(xs, ys, x.category);
    SortedKeys(lower, a, b);
    GroupLeaves(lower, Sorted(lower, a), Sorted(lower, b), k);
    SortedIsStable(lower, a, k);
    SortedIsStable(lower, b, k);
  }

  function Swapped(xs: seq<Outline>, i: nat, j: nat): seq<Outline>
    requires i < j < |xs|
  {
    xs[i := xs[j]][j := xs[i]]
  }

  /** Two that tie and are written differently are told apart by swapping them. */
  lemma {:induction false} SwapShows(lower: string -> string, xs: seq<Outline>, i: nat, j: nat)
    requires i < j < |xs| && Tied(lower, xs[i], xs[j]) && Leaf(xs[i]) != Leaf(xs[j])
    ensures Rearranged(xs, Swapped(xs, i, j)) && Rendered(lower, Swapped(xs, i, j)) != Rendered(lower, xs)
  {
    var ys, x, y := Swapped(xs, i, j), xs[i], xs[j];
    SwapParts(xs, i, j);
    PlaceTells(lower, xs[..i], x, xs[i + 1..], y, ys[i + 1..]);
    if Rendered(lower, ys) == Rendered(lower, xs) {
      WrittenSame(lower, xs, ys, x);
      WrittenTies(lower, xs, ys, x);
    }
  }

  lemma {:induction false} SwapParts(xs: seq<Outline>, i: nat, j: nat)
    requires i < j < |xs|
    ensures Rearranged(xs, Swapped(xs, i, j))
    ensures xs == xs[..i] + [xs[i]] + xs[i + 1..]
    ensures Swapped(xs, i, j) == xs[..i] + [xs[j]] + Swapped(xs, i, j)[i + 1..]
  {
  }

  /** Two rearrangements written alike are written alike in the category of each member. */
  lemma {:induction false} WrittenSame(lower: string -> string, xs: seq<Outline>, ys: seq<Outline>, x: Outline)
    requires Rearranged(xs, ys) && Rendered(lower, xs) == Rendered(lower, ys) && x in xs
    ensures Written(lower, xs, x.category) == Written(lower, ys, x.category)
  {
    RenderedTells(lower, xs, ys);
    CategoriesAre(xs);
    NamesAreSorted(Categories(xs));
  }

  /** Whatever ties is written alike. */
  ghost predicate TiesAlike(lower: string -> string, xs: seq<Outline>) {
    forall i, j :: 0 <= i < j < |xs| && Tied(lower, xs[i], xs[j]) ==> Leaf(xs[i]) == Leaf(xs[j])
  }

  lemma {:induction false} TiedLeaves(lower: string -> string, xs: seq<Outline>, x: Outline, y: Outline)
    requires TiesAlike(lower, xs) && x in xs && y in xs && Tied(lower, x, y)
    ensures Leaf(x) == Leaf(y)
  {
    var i :| 0 <= i < |xs| && xs[i] == x;
    var j :| 0 <= j < |xs| && xs[j] == y;
    assert i < j || j < i || i == j;
  }

  lemma {:induction false} AlikeWritten(lower: string -> string, xs: seq<Outline>, ys: seq<Outline>, category: string)
    requires TiesAlike(lower, xs) && Rearranged(xs, ys)
    ensures Written(lower, xs, category) == Written(lower, ys, category)
  {
    var a, b := Sorted(lower, Of(xs, category)), Sorted(lower, Of(ys, category));
    OfRearranged(xs, ys, category);
    SortedKeys(lower, Of(xs, category), Of(ys, category));
    KeysAt(lower, a);
    KeysAt(lower, b);
    SortedOf(lower, xs, category);
    SortedOf(lower, ys, category);
    forall i | 0 <= i < |a| ensures Leaf(a[i]) == Leaf(b[i]) {
      assert Keys(lower, a)[i] == Keys(lower, b)[i];
      Members(xs, ys, b[i]);
      TiedLeaves(lower, xs, a[i], b[i]);
    }
    SameLeaves(a, b);
  }

  lemma {:induction false} Members(xs: seq<Outline>, ys: seq<Outline>, x: Outline)
    requires Rearranged(xs, ys)
    ensures x in xs <==> x in ys
  {
    assert x in multiset(xs) <==> x in multiset(ys);
  }

  lemma {:induction false} SameLeaves(a: seq<Outline>, b: seq<Outline>)
    requires |a| == |b| && forall i :: 0 <= i < |a| ==> Leaf(a[i]) == Leaf(b[i])
    ensures Leaves(a) == Leaves(b)
  {
    LeavesAt(a);
    LeavesAt(b);
  }

  /** Every order of the subscriptions is written the same. */
  ghost predicate OrderForgotten(lower: string -> string, xs: seq<Outline>) {
    forall ys :: Rearranged(xs, ys) ==> Rendered(lower, ys) == Rendered(lower, xs)
  }

  /** The order subscriptions are read in is forgotten exactly when those of one category that tie
      in lowered title and URL are written alike. */
  lemma {:induction false} OrderForgottenWhen(lower: string -> string, xs: seq<Outline>)
    ensures OrderForgotten(lower, xs) <==> TiesAlike(lower, xs)
  {
    if TiesAlike(lower, xs) {
      forall ys | Rearranged(xs, ys) ensures Rendered(lower, ys) == Rendered(lower, xs) {
        forall c | c in NamesSorted(Categories(xs)) ensures Written(lower, xs, c) == Written(lower, ys, c) {
          AlikeWritten(lower, xs, ys, c);
        }
        RenderedTells(lower, xs, ys);
      }
    } else {
      var i, j :| 0 <= i < j < |xs| && Tied(lower, xs[i], xs[j]) && Leaf(xs[i]) != Leaf(xs[j]);
      SwapShows(lower, xs, i, j);
    }
  }
}
