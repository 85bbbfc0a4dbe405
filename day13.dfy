/** Distress-signal packets: nested lists of integers, their comparison and
    their textual form. */
module Day13 {
  import opened Wrappers
  import Text

  datatype Packet = Number(n: nat) | List(items: seq<Packet>)

  datatype Ordering = Less | Equal | Greater

  function Reverse(o: Ordering): Ordering {
    match o
    case Less => Greater
    case Equal => Equal
    case Greater => Less
  }

  function CmpNat(x: nat, y: nat): (o: Ordering)
    ensures o == Less <==> x < y
    ensures o == Equal <==> x == y
  {
    if x < y then Less else if x == y then Equal else Greater
  }

  function Size(p: Packet): nat
    decreases p
  {
    match p
    case Number(_) => 1
    case List(xs) => 1 + SizeSeq(xs)
  }

  function SizeSeq(xs: seq<Packet>): nat
    decreases xs
  {
    if xs == [] then 0 else Size(xs[0]) + SizeSeq(xs[1..])
  }

  lemma SizeSingleton(p: Packet)
    ensures SizeSeq([p]) == Size(p)
  {
    assert [p][1..] == [];
  }

  /** `PacketNode::cmp`: a number met by a list is compared as the singleton
      list holding it. */
  function Cmp(a: Packet, b: Packet): Ordering
    decreases Size(a) + Size(b), 0
  {
    match (a, b)
    case (Number(x), Number(y)) => CmpNat(x, y)
    case (List(xs), List(ys)) => CmpLists(xs, ys)
    case (List(xs), Number(_)) => SizeSingleton(b); CmpLists(xs, [b])
    case (Number(_), List(ys)) => SizeSingleton(a); CmpLists([a], ys)
  }

  /** The list case of `cmp`: the first unequal pair of the zipped lists
      decides, otherwise the lengths do. */
  function CmpLists(xs: seq<Packet>, ys: seq<Packet>): Ordering
    decreases SizeSeq(xs) + SizeSeq(ys), 1
  {
    if xs == [] && ys == [] then Equal
    else if xs == [] then Less
    else if ys == [] then Greater
    else
      var r := Cmp(xs[0], ys[0]);
      if r != Equal then r else CmpLists(xs[1..], ys[1..])
  }

  /** Two numbers compare by value. */
  lemma CmpNumbers(x: nat, y: nat)
    ensures Cmp(Number(x), Number(y)) == Less <==> x < y
    ensures Cmp(Number(x), Number(y)) == Equal <==> x == y
    ensures Cmp(Number(x), Number(y)) == Greater <==> x > y
  {
  }

  /** A number compared with a list behaves as the singleton list holding it, on
      either side. */
  lemma CmpNumberAsSingleton(n: nat, xs: seq<Packet>)
    ensures Cmp(List(xs), Number(n)) == Cmp(List(xs), List([Number(n)]))
    ensures Cmp(Number(n), List(xs)) == Cmp(List([Number(n)]), List(xs))
  {
  }

  lemma {:induction false} CmpReflexive(a: Packet)
    ensures Cmp(a, a) == Equal
    decreases Size(a), 0
  {
    match a
    case Number(_) =>
    case List(xs) => CmpListsReflexive(xs);
  }

  lemma {:induction false} CmpListsReflexive(xs: seq<Packet>)
    ensures CmpLists(xs, xs) == Equal
    decreases SizeSeq(xs), 1
  {
    if xs != [] {
      CmpReflexive(xs[0]);
      CmpListsReflexive(xs[1..]);
    }
  }

  /** Swapping the operands reverses the result. */
  lemma {:induction false} CmpAntisymmetric(a: Packet, b: Packet)
    ensures Cmp(b, a) == Reverse(Cmp(a, b))
    decreases Size(a) + Size(b), 0
  {
    match (a, b)
    case (Number(_), Number(_)) =>
    case (List(xs), List(ys)) => CmpListsAntisymmetric(xs, ys);
    case (List(xs), Number(_)) => SizeSingleton(b); CmpListsAntisymmetric(xs, [b]);
    case (Number(_), List(ys)) => SizeSingleton(a); CmpListsAntisymmetric([a], ys);
  }

  lemma {:induction false} CmpListsAntisymmetric(xs: seq<Packet>, ys: seq<Packet>)
    ensures CmpLists(ys, xs) == Reverse(CmpLists(xs, ys))
    decreases SizeSeq(xs) + SizeSeq(ys), 1
  {
    if xs != [] && ys != [] {
      CmpAntisymmetric(xs[0], ys[0]);
      CmpListsAntisymmetric(xs[1..], ys[1..]);
    }
  }

  /** A proper prefix is Less than its extension. */
  lemma {:induction false} ProperPrefixIsLess(xs: seq<Packet>, ys: seq<Packet>)
    requires ys != []
    ensures Cmp(List(xs), List(xs + ys)) == Less
    decreases |xs|
  {
    if xs != [] {
      CmpReflexive(xs[0]);
      assert (xs + ys)[0] == xs[0];
      assert (xs + ys)[1..] == xs[1..] + ys;
      ProperPrefixIsLess(xs[1..], ys);
    }
  }

  /** The result of chaining two comparisons that do not point in opposite
      directions. */
  function Chain(o1: Ordering, o2: Ordering): Ordering {
    if o1 == Equal then o2 else o1
  }

  predicate Compatible(o1: Ordering, o2: Ordering) {
    o1 == Equal || o2 == Equal || o1 == o2
  }

  /** The packet order is transitive: Cmp is a total preorder. */
  lemma {:induction false} CmpTransitive(a: Packet, b: Packet, c: Packet)
    requires Compatible(Cmp(a, b), Cmp(b, c))
    ensures Cmp(a, c) == Chain(Cmp(a, b), Cmp(b, c))
    decreases Size(a) + Size(b) + Size(c), 0
  {
    if a.Number? && b.Number? && c.Number? {
    } else {
      CmpViaLists(a, b);
      CmpViaLists(b, c);
      CmpViaLists(a, c);
      WrapSize(a);
      WrapSize(b);
      WrapSize(c);
      CmpListsTransitive(Wrap(a), Wrap(b), Wrap(c));
    }
  }

  lemma {:induction false} CmpListsTransitive(xs: seq<Packet>, ys: seq<Packet>, zs: seq<Packet>)
    requires Compatible(CmpLists(xs, ys), CmpLists(ys, zs))
    ensures CmpLists(xs, zs) == Chain(CmpLists(xs, ys), CmpLists(ys, zs))
    decreases SizeSeq(xs) + SizeSeq(ys) + SizeSeq(zs), 1
  {
    if xs != [] && ys != [] && zs != [] {
      var h1, h2 := Cmp(xs[0], ys[0]), Cmp(ys[0], zs[0]);
      if Compatible(h1, h2) {
        CmpTransitive(xs[0], ys[0], zs[0]);
      }
      if h1 == Equal && h2 == Equal {
        CmpListsTransitive(xs[1..], ys[1..], zs[1..]);
      }
    }
  }

  /** The list a packet is compared as when it meets a list. */
  function Wrap(p: Packet): seq<Packet> {
    match p
    case Number(_) => [p]
    case List(xs) => xs
  }

  lemma WrapSize(p: Packet)
    ensures SizeSeq(Wrap(p)) + (if p.List? then 1 else 0) == Size(p)
  {
    if p.Number? {
      SizeSingleton(p);
    }
  }

  /** Every comparison is the comparison of the wrapped lists. */
  lemma CmpViaLists(a: Packet, b: Packet)
    ensures Cmp(a, b) == CmpLists(Wrap(a), Wrap(b))
  {
    if a.Number? && b.Number? {
      assert [a][1..] == [];
      assert [b][1..] == [];
    }
  }

  predicate Sorted(s: seq<Packet>) {
    forall i, j :: 0 <= i < j < |s| ==> Cmp(s[i], s[j]) != Greater
  }

  /** Inserting into a sorted sequence before the first element not below x. */
  function Insert(x: Packet, s: seq<Packet>): (r: seq<Packet>)
    ensures multiset(r) == multiset(s) + multiset{x}
    ensures |r| == |s| + 1
  {
    if s == [] then [x]
    else if Cmp(x, s[0]) != Greater then [x] + s
    else
      assert s == [s[0]] + s[1..];
      [s[0]] + Insert(x, s[1..])
  }

  lemma {:induction false} InsertSorted(x: Packet, s: seq<Packet>)
    requires Sorted(s)
    ensures Sorted(Insert(x, s))
  {
    if s == [] {
    } else if Cmp(x, s[0]) != Greater {
      var r := [x] + s;
      forall i, j | 0 <= i < j < |r|
        ensures Cmp(r[i], r[j]) != Greater
      {
        if i == 0 && j > 1 {
          CmpTransitive(x, s[0], s[j - 1]);
        }
      }
    } else {
      InsertSorted(x, s[1..]);
      var t := Insert(x, s[1..]);
      var r := [s[0]] + t;
      CmpAntisymmetric(x, s[0]);
      forall j | 0 <= j < |t|
        ensures Cmp(s[0], t[j]) != Greater
      {
        assert t[j] in multiset(s[1..]) + multiset{x};
        if t[j] != x {
          assert t[j] in s[1..];
          var k :| 0 <= k < |s[1..]| && s[1..][k] == t[j];
          assert s[k + 1] == t[j];
        }
      }
      assert Sorted(r);
    }
  }

  /** The order `nodes.sort()` leaves the packets in. Any sorting algorithm
      yields the same divider positions, see `SortedDividerPosition`. */
  function Sort(s: seq<Packet>): (r: seq<Packet>)
    ensures multiset(r) == multiset(s)
    ensures Sorted(r)
  {
    if s == [] then []
    else
      assert s == [s[0]] + s[1..];
      InsertSorted(s[0], Sort(s[1..]));
      Insert(s[0], Sort(s[1..]))
  }

  /** `find_position(|x| x == d)`, where `==` means that `cmp` gives Equal. */
  function FindEqual(s: seq<Packet>, d: Packet): (r: Option<nat>)
    ensures r.Some? ==> r.value < |s| && Cmp(s[r.value], d) == Equal
    ensures r.Some? ==> forall i :: 0 <= i < r.value ==> Cmp(s[i], d) != Equal
    ensures r.None? ==> forall i :: 0 <= i < |s| ==> Cmp(s[i], d) != Equal
  {
    if s == [] then None
    else if Cmp(s[0], d) == Equal then Some(0)
    else match FindEqual(s[1..], d)
      case None => None
      case Some(k) => Some(k + 1)
  }

  /** The number of packets strictly below d. */
  function CountLess(s: seq<Packet>, d: Packet): (n: nat)
    ensures n <= |s|
  {
    if s == [] then 0 else (if Cmp(s[0], d) == Less then 1 else 0) + CountLess(s[1..], d)
  }

  lemma {:induction false} CountLessInsert(x: Packet, s: seq<Packet>, d: Packet)
    ensures CountLess(Insert(x, s), d) == CountLess(s, d) + (if Cmp(x, d) == Less then 1 else 0)
  {
    if s != [] && Cmp(x, s[0]) == Greater {
      CountLessInsert(x, s[1..], d);
      assert ([s[0]] + Insert(x, s[1..]))[1..] == Insert(x, s[1..]);
    } else if s != [] {
      assert ([x] + s)[1..] == s;
    }
  }

  /** Sorting does not change how many packets lie below d. */
  lemma {:induction false} CountLessSort(s: seq<Packet>, d: Packet)
    ensures CountLess(Sort(s), d) == CountLess(s, d)
  {
    if s != [] {
      CountLessSort(s[1..], d);
      CountLessInsert(s[0], Sort(s[1..]), d);
    }
  }

  lemma {:induction false} NoneLess(s: seq<Packet>, d: Packet)
    requires forall i :: 0 <= i < |s| ==> Cmp(s[i], d) != Less
    ensures CountLess(s, d) == 0
  {
    if s != [] {
      NoneLess(s[1..], d);
    }
  }

  /** In a sorted sequence that holds d, the first packet equal to d sits right
      after the packets below d. */
  lemma {:induction false} SortedDividerPosition(s: seq<Packet>, d: Packet)
    requires Sorted(s) && d in s
    ensures FindEqual(s, d) == Some(CountLess(s, d))
  {
    CmpReflexive(d);
    var o := Cmp(s[0], d);
    if o == Less {
      assert d in s[1..];
      assert Sorted(s[1..]) by {
        forall i, j | 0 <= i < j < |s[1..]| ensures Cmp(s[1..][i], s[1..][j]) != Greater {
          assert s[1..][i] == s[i + 1] && s[1..][j] == s[j + 1];
        }
      }
      SortedDividerPosition(s[1..], d);
    } else if o == Equal {
      forall i | 0 <= i < |s[1..]| ensures Cmp(s[1..][i], d) != Less {
        assert s[1..][i] == s[i + 1];
        if Cmp(s[i + 1], d) == Less {
          CmpTransitive(s[0], s[i + 1], d);
        }
      }
      NoneLess(s[1..], d);
    } else {
      assert false;
    }
  }

  const Divider1: Packet := List([List([Number(2)])])
  const Divider2: Packet := List([List([Number(6)])])

  /** The 1-based position of the first packet equal to d; `unwrap` cannot fail
      because d is present. */
  function DividerPosition(sorted: seq<Packet>, d: Packet): (k: nat)
    requires Sorted(sorted) && d in sorted
    ensures k == CountLess(sorted, d) + 1
  {
    SortedDividerPosition(sorted, d);
    FindEqual(sorted, d).value + 1
  }

  /** The product of the 1-based positions of the two dividers once `nodes`
      is sorted (`nodes.sort()`). Whatever the sort, each position is one more
      than the number of packets below that divider. */
  function KeyFor(nodes: seq<Packet>, d1: Packet, d2: Packet): (key: int)
    requires d1 in nodes && d2 in nodes
    ensures key == (CountLess(nodes, d1) + 1) * (CountLess(nodes, d2) + 1)
  {
    var sorted := Sort(nodes);
    assert d1 in multiset(nodes) && d2 in multiset(nodes);
    CountLessSort(nodes, d1);
    CountLessSort(nodes, d2);
    DividerPosition(sorted, d1) * DividerPosition(sorted, d2)
  }

  /** The decoder key of `part_two`: the two dividers pushed after the
      packets. */
  function DecoderKey(packets: seq<Packet>): int {
    var nodes := packets + [Divider1, Divider2];
    assert nodes[|packets|] == Divider1 && nodes[|packets| + 1] == Divider2;
    KeyFor(nodes, Divider1, Divider2)
  }

  /** Every number fits the `u32` that `PacketNode::Number` holds. */
  predicate Bounded(p: Packet) {
    match p
    case Number(n) => n < 0x1_0000_0000
    case List(xs) => forall i :: 0 <= i < |xs| ==> Bounded(xs[i])
  }

  /** The textual form of a packet: decimal numbers, bracketed lists separated
      by commas. */
  function Show(p: Packet): string
    decreases p
  {
    match p
    case Number(n) => Text.NatToString(n)
    case List(xs) => "[" + ShowItems(xs) + "]"
  }

  function ShowItems(xs: seq<Packet>): string
    decreases xs
  {
    if xs == [] then "" else if |xs| == 1 then Show(xs[0]) else Show(xs[0]) + "," + ShowItems(xs[1..])
  }

  /** The items of xs, each followed by a comma. */
  function Lead(xs: seq<Packet>): string {
    if xs == [] then "" else Show(xs[0]) + "," + Lead(xs[1..])
  }

  predicate Renders(p: Packet, s: string) {
    Bounded(p) && Show(p) == s
  }

  /** `input.parse::<u32>().unwrap()`, where the `unwrap` fails on anything but
      an optional '+' and the digits of a number below 2^32. */
  function ParseNumber(s: string): (r: Option<Packet>)
    ensures r.Some? ==> r.value.Number? && Bounded(r.value)
  {
    match Text.ParseNat(s)
    case Some(n) => if n < 0x1_0000_0000 then Some(Number(n)) else None
    case None => None
  }

  lemma ShowShape(p: Packet)
    ensures |Show(p)| > 0
    ensures Show(p)[0] == '[' <==> p.List?
    ensures p.Number? ==> Text.AllDigits(Show(p))
  {
  }

  function Delta(c: char): int {
    if c == '[' then 1 else if c == ']' then -1 else 0
  }

  /** Opening minus closing brackets. */
  function Depth(s: string): int {
    if s == [] then 0 else Depth(s[..|s| - 1]) + Delta(s[|s| - 1])
  }

  lemma {:induction false} DepthAppend(s: string, t: string)
    ensures Depth(s + t) == Depth(s) + Depth(t)
    decreases |t|
  {
    if t == [] {
      assert s + t == s;
    } else {
      assert (s + t)[..|s + t| - 1] == s + t[..|t| - 1];
      DepthAppend(s, t[..|t| - 1]);
    }
  }

  lemma {:induction false} DepthOfDigits(s: string)
    requires Text.AllDigits(s)
    ensures Depth(s) == 0
    decreases |s|
  {
    if s != [] {
      DepthOfDigits(s[..|s| - 1]);
    }
  }

  /** The brackets of a rendered packet balance, and no prefix closes more
      than it opened; inside a list every proper prefix is still open. */
  lemma {:induction false} ShowDepth(p: Packet)
    ensures Depth(Show(p)) == 0
    ensures forall j :: 0 <= j <= |Show(p)| ==> Depth(Show(p)[..j]) >= 0
    ensures p.List? ==> forall j :: 0 < j < |Show(p)| ==> Depth(Show(p)[..j]) > 0
    decreases p, 1
  {
    var s := Show(p);
    match p
    case Number(n) =>
      forall j | 0 <= j <= |s| ensures Depth(s[..j]) >= 0 {
        DepthOfDigits(s[..j]);
      }
      DepthOfDigits(s);
    case List(xs) =>
      var b := ShowItems(xs);
      ShowItemsDepth(xs);
      forall j | 0 < j < |s| ensures Depth(s[..j]) > 0 {
        assert s[..j] == "[" + b[..j - 1];
        DepthAppend("[", b[..j - 1]);
      }
      DepthAppend("[", b);
      DepthAppend("[" + b, "]");
      forall j | 0 <= j <= |s| ensures Depth(s[..j]) >= 0 {
        if j == 0 {
          assert s[..j] == [];
        } else if j == |s| {
          assert s[..j] == s;
        }
      }
  }

  lemma {:induction false} ShowItemsDepth(xs: seq<Packet>)
    ensures Depth(ShowItems(xs)) == 0
    ensures forall j :: 0 <= j <= |ShowItems(xs)| ==> Depth(ShowItems(xs)[..j]) >= 0
    decreases xs, 0
  {
    if xs == [] {
    } else if |xs| == 1 {
      ShowDepth(xs[0]);
    } else {
      var a, rest := Show(xs[0]), ShowItems(xs[1..]);
      var s := ShowItems(xs);
      assert s == a + "," + rest;
      ShowDepth(xs[0]);
      ShowItemsDepth(xs[1..]);
      forall j | 0 <= j <= |s| ensures Depth(s[..j]) >= 0 {
        if j <= |a| {
          assert s[..j] == a[..j];
        } else {
          assert s[..j] == (a + ",") + rest[..j - |a| - 1];
          DepthAppend(a, ",");
          DepthAppend(a + ",", rest[..j - |a| - 1]);
        }
      }
      DepthAppend(a, ",");
      DepthAppend(a + ",", rest);
    }
  }

  lemma {:induction false} LeadAppend(xs: seq<Packet>, x: Packet)
    ensures Lead(xs + [x]) == Lead(xs) + Show(x) + ","
  {
    if xs != [] {
      assert (xs + [x])[1..] == xs[1..] + [x];
      LeadAppend(xs[1..], x);
    }
  }

  lemma {:induction false} ShowItemsSplit(xs: seq<Packet>, k: nat)
    requires k < |xs|
    ensures ShowItems(xs) == Lead(xs[..k]) + ShowItems(xs[k..])
  {
    if k > 0 {
      ShowItemsSplit(xs[1..], k - 1);
      assert xs[1..][..k - 1] == xs[1..k] && xs[1..][k - 1..] == xs[k..];
      assert xs[..k][1..] == xs[1..k];
    }
  }

  lemma LeadOfAll(xs: seq<Packet>)
    requires xs != []
    ensures Lead(xs) == ShowItems(xs) + ","
  {
    var k := |xs| - 1;
    ShowItemsSplit(xs, k);
    LeadAppend(xs[..k], xs[k]);
    assert xs[..k] + [xs[k]] == xs;
    assert xs[k..] == [xs[k]];
  }

  /** What follows item k in the rendering of a list's items. */
  function Tail(xs: seq<Packet>, k: nat): string
    requires k < |xs|
  {
    if k + 1 < |xs| then "," + ShowItems(xs[k + 1..]) else ""
  }

  lemma ShowListParts(xs: seq<Packet>, k: nat)
    requires k < |xs|
    ensures Show(List(xs)) == "[" + Lead(xs[..k]) + Show(xs[k]) + Tail(xs, k) + "]"
  {
    ShowItemsSplit(xs, k);
    var rest := xs[k..];
    assert rest[0] == xs[k];
    assert ShowItems(rest) == Show(xs[k]) + Tail(xs, k) by {
      if k + 1 < |xs| {
        assert |rest| >= 2 && rest[1..] == xs[k + 1..];
      } else {
        assert |rest| == 1;
      }
    }
  }

  /** Where item k of a rendered list sits, and what follows it. */
  lemma ItemLayout(xs: seq<Packet>, k: nat)
    requires k < |xs|
    ensures var s := Show(List(xs));
      var st := 1 + |Lead(xs[..k])|;
      var e := st + |Show(xs[k])|;
      e < |s| && s[st..e] == Show(xs[k]) &&
      ((k + 1 < |xs| && s[e] == ',') || (k + 1 == |xs| && e == |s| - 1)) &&
      1 + |Lead(xs[..k + 1])| == e + 1
  {
    ShowListParts(xs, k);
    var s := Show(List(xs));
    var l, item, t := Lead(xs[..k]), Show(xs[k]), Tail(xs, k);
    Bracketed(s, l, item, t);
    LeadAppend(xs[..k], xs[k]);
    assert xs[..k] + [xs[k]] == xs[..k + 1];
  }

  /** Where the middle part of a bracketed concatenation sits. */
  lemma Bracketed(s: string, l: string, item: string, t: string)
    requires s == "[" + l + item + t + "]"
    ensures |s| == |l| + |item| + |t| + 2
    ensures s[1 + |l|..1 + |l| + |item|] == item
    ensures t != [] ==> s[1 + |l| + |item|] == t[0]
  {
    var st := 1 + |l|;
    var e := st + |item|;
    assert s[st..e] == item;
    if t != [] {
      assert s[e] == t[0];
    }
  }

  /** What the parser has consumed of the rendering of p: the first items,
      each with the separator after it. */
  predicate Tracks(p: Packet, subnodes: seq<Packet>, index: int) {
    p.List? && |subnodes| <= |p.items| && subnodes == p.items[..|subnodes|] &&
    index == 1 + |Lead(p.items[..|subnodes|])|
  }

  /** A rendered number parses back, and only a number renders without a
      leading bracket. */
  lemma RendersNumber(p: Packet, s: string)
    requires Renders(p, s) && (s == [] || s[0] != '[')
    ensures ParseNumber(s) == Some(p)
  {
    ShowShape(p);
    Text.ParseNatOfNatToString(p.n);
  }

  lemma ShowEmptyList(p: Packet)
    requires p.List? && p.items == []
    ensures |Show(p)| == 2 && Lead(p.items) == []
  {
  }

  /** While the rendering of p is being parsed, the loop always stands at the
      start of the next item, and that item is followed by a separator. */
  lemma NextItem(p: Packet, input: string, subnodes: seq<Packet>, index: int)
    requires Renders(p, input) && Tracks(p, subnodes, index) && index < |input| - 1
    ensures |subnodes| < |p.items|
    ensures var q := p.items[|subnodes|]; var e := index + |Show(q)|;
      e < |input| && input[index..e] == Show(q) &&
      (input[index] == '[' <==> q.List?) && Bounded(q) &&
      (input[e] == ',' || e == |input| - 1) &&
      Tracks(p, subnodes + [q], e + 1)
  {
    var k := |subnodes|;
    if k == |p.items| {
      assert p.items[..k] == p.items;
      if p.items != [] {
        LeadOfAll(p.items);
        assert false;
      } else {
        ShowEmptyList(p);
        assert false;
      }
    }
    var q := p.items[k];
    ItemLayout(p.items, k);
    ShowShape(q);
    assert p.items[..k + 1] == subnodes + [q];
  }

  /** The bracket count of the scan starting at a list item first returns to
      zero at the end of that item. */
  lemma BracketScan(p: Packet, input: string, subnodes: seq<Packet>, start: int, index: int)
    requires Renders(p, input) && Tracks(p, subnodes, start) && start < |input| - 1
    requires input[start] == '['
    requires start < index <= |input|
    requires forall j :: start < j < index ==> Depth(input[start..j]) > 0
    ensures |subnodes| < |p.items|
    ensures index <= start + |Show(p.items[|subnodes|])|
    ensures Depth(input[start..index]) == 0 ==> input[start..index] == Show(p.items[|subnodes|])
  {
    NextItem(p, input, subnodes, start);
    var q := p.items[|subnodes|];
    var e := start + |Show(q)|;
    ShowDepth(q);
    if index > e {
      assert false;
    }
    PrefixOfSlice(input, start, index, e);
    if Depth(input[start..index]) == 0 && index < e {
      assert false;
    }
  }

  lemma PrefixOfSlice(s: string, a: int, m: int, b: int)
    requires 0 <= a <= m <= b <= |s|
    ensures s[a..m] == s[a..b][..m - a]
  {
  }

  /** No separator between start and index, and index before the closing
      bracket. */
  predicate NoComma(input: string, start: int, index: int)
    requires 0 <= start <= index <= |input|
  {
    forall j :: start <= j < index ==> j < |input| - 1 && input[j] != ','
  }

  /** The scan starting at a number item stops at the end of that item. */
  lemma NumberScan(p: Packet, input: string, subnodes: seq<Packet>, start: int, index: int)
    requires Renders(p, input) && Tracks(p, subnodes, start) && start < |input| - 1
    requires input[start] != '['
    requires start <= index <= |input|
    requires NoComma(input, start, index)
    requires index >= |input| - 1 || input[index] == ','
    ensures |subnodes| < |p.items|
    ensures input[start..index] == Show(p.items[|subnodes|])
  {
    NextItem(p, input, subnodes, start);
    var q := p.items[|subnodes|];
    var e := start + |Show(q)|;
    ShowShape(q);
    if index < e {
      assert false;
    } else if index > e {
      assert false;
    }
  }

  /** When the loop stops, every item of p has been parsed. */
  lemma AllItems(p: Packet, input: string, subnodes: seq<Packet>, index: int)
    requires Renders(p, input) && Tracks(p, subnodes, index) && index >= |input| - 1
    ensures subnodes == p.items
  {
    var k := |subnodes|;
    if k < |p.items| {
      ItemLayout(p.items, k);
      ShowShape(p.items[k]);
      assert false;
    }
    assert p.items[..k] == p.items;
  }

  /** `PacketNode::from`. None stands for a panic (a malformed number) and for
      the endless scan of a list whose brackets never close. Every rendering
      of a packet parses back to that packet. */
  method Parse(input: string) returns (r: Option<Packet>)
    ensures input == [] || input[0] != '[' ==> r == ParseNumber(input)
    ensures input == "[]" ==> r == Some(List([]))
    ensures r.Some? && input != [] && input[0] == '[' ==> r.value.List?
    ensures r.Some? ==> Bounded(r.value)
    ensures forall p :: Renders(p, input) ==> r == Some(p)
    decreases |input|
  {
    if input == [] || input[0] != '[' {
      r := ParseNumber(input);
      forall p | Renders(p, input) ensures r == Some(p) {
        RendersNumber(p, input);
      }
      return;
    }
    forall p | Renders(p, input) ensures Tracks(p, [], 1) {
      ShowShape(p);
    }
    var subnodes: seq<Packet> := [];
    var index := 1;
    while index < |input| - 1
      invariant 1 <= index <= |input| + 1
      invariant forall i :: 0 <= i < |subnodes| ==> Bounded(subnodes[i])
      invariant forall p :: Renders(p, input) ==> Tracks(p, subnodes, index)
    {
      ghost var st := index;
      var sub: string;
      if input[index] == '[' {
        var start := index;
        var count := 1;
        index := index + 1;
        assert input[start..index][..0] == [];
        while count > 0
          invariant start < index <= |input|
          invariant count == Depth(input[start..index])
          invariant forall j :: start < j < index ==> Depth(input[start..j]) > 0
          decreases |input| - index
        {
          if index >= |input| {
            forall p | Renders(p, input) ensures false {
              BracketScan(p, input, subnodes, start, index);
              NextItem(p, input, subnodes, start);
            }
            return None;
          }
          assert input[start..index + 1][..index - start] == input[start..index];
          if input[index] == '[' {
            count := count + 1;
          } else if input[index] == ']' {
            count := count - 1;
          }
          index := index + 1;
        }
        sub := input[start..index];
        forall p | Renders(p, input) ensures |subnodes| < |p.items| && sub == Show(p.items[|subnodes|]) {
          BracketScan(p, input, subnodes, start, index);
        }
      } else {
        var start := index;
        while index < |input| - 1 && input[index] != ','
          invariant start <= index <= |input|
          invariant NoComma(input, start, index)
        {
          index := index + 1;
        }
        sub := input[start..index];
        forall p | Renders(p, input) ensures |subnodes| < |p.items| && sub == Show(p.items[|subnodes|]) {
          NumberScan(p, input, subnodes, start, index);
        }
      }
      var node := Parse(sub);
      forall p | Renders(p, input) ensures node == Some(p.items[|subnodes|]) && index == st + |sub| {
        NextItem(p, input, subnodes, st);
      }
      if node.None? {
        forall p | Renders(p, input) ensures false {
        }
        return None;
      }
      forall p | Renders(p, input) ensures Tracks(p, subnodes + [node.value], index + 1) {
        NextItem(p, input, subnodes, st);
      }
      subnodes := subnodes + [node.value];
      index := index + 1;
    }
    r := Some(List(subnodes));
    forall p | Renders(p, input) ensures r == Some(p) {
      AllItems(p, input, subnodes, index);
    }
  }
}
