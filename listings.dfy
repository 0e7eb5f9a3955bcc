/** The listing scanner of analyzer.go: locating the listings container in a
    results page (`findListingsContainer`), reading the price of one price
    container (`parsePriceNode`), collecting the prices of every price
    container below the listings container (`getPricesFromListings`) and the
    two put together (`parseHTML`). */
module Listings {
  import opened Outcomes
  import opened Strings
  import opened Strconv
  import opened Html
  import opened Search
  import opened PriceText

  /** Class-name fragments that mark the parts of a results page. */
  const ListingsMarker: string := "ListingsContainer"
  const PriceMarker: string := "PriceContainer"
  const TextMarker: string := "Text"
  const TitleMarker: string := "PriceTitleText"

  /** A `class` attribute whose value contains `marker`. */
  predicate IsClassWith(a: Attribute, marker: string) {
    a.key == "class" && Contains(a.val, marker)
  }

  /** A `div` element with a `class` attribute mentioning the listings
      marker. */
  predicate IsListingsContainer(n: Node) {
    IsElement(n, "div") && exists i :: 0 <= i < |n.attrs| && IsClassWith(n.attrs[i], ListingsMarker)
  }

  // ---------------------------------------------------------------------
  // findListingsContainer
  // ---------------------------------------------------------------------

  /** The first node of `nodes` that is a listings container, if any. */
  function FirstListings(nodes: seq<Node>): Option<Node> {
    var k := FirstIndex(nodes, IsListingsContainer);
    if k < |nodes| then Some(nodes[k]) else None
  }

  /** `findListingsContainer`: the node itself when it is a listings
      container, otherwise the first container found in its children, tried
      left to right. The result is the first container of the tree in
      depth-first pre-order. */
  function FindListingsContainer(n: Node): (r: Option<Node>)
    ensures r == FirstListings(PreOrder(n))
    decreases n, 1
  {
    var rest := PreOrderAll(n.children);
    FirstIndexAppend([n], rest, IsListingsContainer);
    assert PreOrder(n) == [n] + rest;
    if IsListingsContainer(n) then Some(n)
    else
      assert FirstIndex([n], IsListingsContainer) == 1;
      FindInChildren(n.children)
  }

  /** The loop over the children in `findListingsContainer`. */
  function FindInChildren(cs: seq<Node>): (r: Option<Node>)
    ensures r == FirstListings(PreOrderAll(cs))
    decreases cs, 0
  {
    if cs == [] then None
    else
      var head := PreOrder(cs[0]);
      var tail := PreOrderAll(cs[1..]);
      FirstIndexAppend(head, tail, IsListingsContainer);
      assert PreOrderAll(cs) == head + tail;
      match FindListingsContainer(cs[0])
      case Some(m) =>
        assert (head + tail)[FirstIndex(head, IsListingsContainer)] == head[FirstIndex(head, IsListingsContainer)];
        Some(m)
      case None =>
        var k := FirstIndex(tail, IsListingsContainer);
        assert k < |tail| ==> (head + tail)[|head| + k] == tail[k];
        FindInChildren(cs[1..])
  }

  /** What the locator finds is a listings container of the tree, and it
      finds nothing exactly when the tree holds none. */
  lemma FindListingsContainerSound(n: Node)
    ensures var r := FindListingsContainer(n);
      && (r.Some? ==> IsListingsContainer(r.value) && r.value in PreOrder(n))
      && (r.None? <==> forall i :: 0 <= i < |PreOrder(n)| ==> !IsListingsContainer(PreOrder(n)[i]))
  {
    var nodes := PreOrder(n);
    var k := FirstIndex(nodes, IsListingsContainer);
    if k == |nodes| {
      assert forall i :: 0 <= i < |nodes| ==> !IsListingsContainer(nodes[i]);
    }
  }

  /** Every node the search visits before the one it returns is not a
      listings container. */
  lemma FindListingsContainerFirst(n: Node)
    requires FindListingsContainer(n).Some?
    ensures exists k :: (
      && 0 <= k < |PreOrder(n)|
      && PreOrder(n)[k] == FindListingsContainer(n).value
      && forall j :: 0 <= j < k ==> !IsListingsContainer(PreOrder(n)[j]))
  {
    var nodes := PreOrder(n);
    var k := FirstIndex(nodes, IsListingsContainer);
    assert forall j :: 0 <= j < k ==> !IsListingsContainer(nodes[j]);
  }

  // ---------------------------------------------------------------------
  // parsePriceNode
  // ---------------------------------------------------------------------

  /** Why no price could be read from a price container. */
  datatype PriceError =
    | ParseFailure(cause: NumError)  // the text did not parse as a number
    | NoPriceText                    // the price paragraph has no children
    | NoPriceData                    // no price paragraph among the children

  /** A `class` attribute naming price text but not the price title. */
  predicate IsPriceTextClass(a: Attribute) {
    a.key == "class" && Contains(a.val, TextMarker) && !Contains(a.val, TitleMarker)
  }

  /** A `p` element with a price-text `class` attribute. */
  predicate IsPriceTextNode(c: Node) {
    IsElement(c, "p") && exists i :: 0 <= i < |c.attrs| && IsPriceTextClass(c.attrs[i])
  }

  /** The outcome of reading the price of container `n`: the first child
      that is a price paragraph decides, through the text of its first
      child. */
  function PriceNodeResult(n: Node): Result<Uint64, PriceError> {
    var k := FirstIndex(n.children, IsPriceTextNode);
    if k == |n.children| then Err(NoPriceData)
    else
      var c := n.children[k];
      if c.children == [] then Err(NoPriceText)
      else
        match ParsePrice(c.children[0].data)
        case Ok(v) => Ok(v)
        case Err(e) => Err(ParseFailure(e))
  }

  /** `parsePriceNode`: scans the children of `node` and their attributes
      and returns as soon as a price paragraph is found. */
  method ParsePriceNode(node: Node) returns (r: Result<Uint64, PriceError>)
    ensures r == PriceNodeResult(node)
  {
    var cs := node.children;
    var j := 0;
    while j < |cs|
      invariant j <= |cs|
      invariant forall t :: 0 <= t < j ==> !IsPriceTextNode(cs[t])
    {
      var c := cs[j];
      if c.kind == ElementNode && c.data == "p" {
        var i := 0;
        while i < |c.attrs|
          invariant i <= |c.attrs|
          invariant forall t :: 0 <= t < i ==> !IsPriceTextClass(c.attrs[t])
        {
          var a := c.attrs[i];
          if a.key != "class" {
            i := i + 1;
            continue;
          }
          if Contains(a.val, TextMarker) && !Contains(a.val, TitleMarker) {
            assert IsPriceTextNode(c);
            FirstIndexUnique(cs, IsPriceTextNode, j);
            if c.children == [] {
              return Err(NoPriceText);
            }
            var p := ParsePrice(c.children[0].data);
            match p {
              case Ok(v) => r := Ok(v);
              case Err(e) => r := Err(ParseFailure(e));
            }
            return;
          }
          i := i + 1;
        }
      }
      j := j + 1;
    }
    FirstIndexUnique(cs, IsPriceTextNode, |cs|);
    return Err(NoPriceData);
  }

  /** No price data exactly when no child is a price paragraph. */
  lemma NoPriceDataIff(n: Node)
    ensures PriceNodeResult(n) == Err(NoPriceData)
            <==> forall j :: 0 <= j < |n.children| ==> !IsPriceTextNode(n.children[j])
  {
    var k := FirstIndex(n.children, IsPriceTextNode);
    if k < |n.children| {
      assert IsPriceTextNode(n.children[k]);
    }
  }

  /** A price read from a container is the parsed text of the first child of
      one of its price paragraphs, and every child before that paragraph is
      not a price paragraph. */
  lemma PriceNodeResultOk(n: Node, v: Uint64)
    requires PriceNodeResult(n) == Ok(v)
    ensures exists k :: (
      && 0 <= k < |n.children|
      && IsPriceTextNode(n.children[k])
      && (forall j :: 0 <= j < k ==> !IsPriceTextNode(n.children[j]))
      && n.children[k].children != []
      && ParsePrice(n.children[k].children[0].data) == Ok(v))
  {
    var k := FirstIndex(n.children, IsPriceTextNode);
    assert forall j :: 0 <= j < k ==> !IsPriceTextNode(n.children[j]);
  }

  /** Children in front that are not price paragraphs (such as the price
      title) do not change the outcome. */
  lemma {:induction false} PriceNodeResultSkipsOthers(kind: NodeType, data: string, attrs: seq<Attribute>,
                                                     others: seq<Node>, cs: seq<Node>)
    requires forall j :: 0 <= j < |others| ==> !IsPriceTextNode(others[j])
    ensures PriceNodeResult(Node(kind, data, attrs, others + cs)) == PriceNodeResult(Node(kind, data, attrs, cs))
  {
    FirstIndexSkip(others, cs, IsPriceTextNode);
    var k := FirstIndex(cs, IsPriceTextNode);
    if k < |cs| {
      assert (others + cs)[|others| + k] == cs[k];
    }
    SameDecidingChild(Node(kind, data, attrs, others + cs), Node(kind, data, attrs, cs));
  }

  /** Two containers whose first price paragraphs are the same node, or
      that both have none, have the same outcome. */
  lemma SameDecidingChild(n: Node, m: Node)
    requires FirstIndex(n.children, IsPriceTextNode) == |n.children|
             <==> FirstIndex(m.children, IsPriceTextNode) == |m.children|
    requires FirstIndex(n.children, IsPriceTextNode) < |n.children| ==>
             n.children[FirstIndex(n.children, IsPriceTextNode)]
             == m.children[FirstIndex(m.children, IsPriceTextNode)]
    ensures PriceNodeResult(n) == PriceNodeResult(m)
  {
  }

  /** Children after the first price paragraph do not change the outcome. */
  lemma PriceNodeResultIgnoresLater(kind: NodeType, data: string, attrs: seq<Attribute>,
                                    cs: seq<Node>, later: seq<Node>)
    requires exists j :: 0 <= j < |cs| && IsPriceTextNode(cs[j])
    ensures PriceNodeResult(Node(kind, data, attrs, cs + later)) == PriceNodeResult(Node(kind, data, attrs, cs))
  {
    FirstIndexAppend(cs, later, IsPriceTextNode);
    var k := FirstIndex(cs, IsPriceTextNode);
    assert k < |cs|;
    assert (cs + later)[k] == cs[k];
    SameDecidingChild(Node(kind, data, attrs, cs + later), Node(kind, data, attrs, cs));
  }

  // ---------------------------------------------------------------------
  // getPricesFromListings
  // ---------------------------------------------------------------------

  /** The number of attributes among `attrs` that are `class` attributes
      mentioning the price-container marker. */
  function CountPriceClasses(attrs: seq<Attribute>): nat {
    if attrs == [] then 0
    else CountPriceClasses(attrs[..|attrs| - 1]) + (if IsClassWith(attrs[|attrs| - 1], PriceMarker) then 1 else 0)
  }

  /** How many times the scanner asks node `n` for its price: once per
      price-container class attribute of a `div`. */
  function PriceContainerCount(n: Node): nat {
    if IsElement(n, "div") then CountPriceClasses(n.attrs) else 0
  }

  /** `k` copies of `v`. */
  function Repeat(v: Uint64, k: nat): (r: seq<Uint64>)
    ensures |r| == k
    ensures forall i :: 0 <= i < k ==> r[i] == v
  {
    if k == 0 then [] else Repeat(v, k - 1) + [v]
  }

  /** The prices node `n` contributes on its own: its price once per
      price-container class attribute, or nothing when the price cannot be
      read. */
  function NodePrices(n: Node): seq<Uint64> {
    PricesFor(PriceNodeResult(n), PriceContainerCount(n))
  }

  /** The prices appended by `k` reads of a price container with outcome
      `r`: `k` copies of the price, or nothing when it cannot be read. */
  function PricesFor(r: Result<Uint64, PriceError>, k: nat): seq<Uint64> {
    if r.Ok? then Repeat(r.value, k) else []
  }

  /** The contributions of `nodes`, in order. */
  function PricesOf(nodes: seq<Node>): seq<Uint64> {
    if nodes == [] then [] else NodePrices(nodes[0]) + PricesOf(nodes[1..])
  }

  /** The prices collected from the tree rooted at `n`: its own
      contribution, then those of its children's trees left to right. */
  function TreePrices(n: Node): seq<Uint64>
    decreases n, 1
  {
    NodePrices(n) + ForestPrices(n.children)
  }

  /** The prices collected from the trees `cs`, one after the other. */
  function ForestPrices(cs: seq<Node>): seq<Uint64>
    decreases cs, 0
  {
    if cs == [] then [] else ForestPrices(cs[..|cs| - 1]) + TreePrices(cs[|cs| - 1])
  }

  /** The collection order is depth-first pre-order: the tree's prices are
      the contributions of its nodes, each node before its descendants. */
  lemma {:induction false} TreePricesPreOrder(n: Node)
    ensures TreePrices(n) == PricesOf(PreOrder(n))
    decreases n, 1
  {
    ForestPricesPreOrder(n.children);
    PricesOfAppend([n], PreOrderAll(n.children));
    assert PricesOf([n]) == NodePrices(n);
  }

  lemma {:induction false} ForestPricesPreOrder(cs: seq<Node>)
    ensures ForestPrices(cs) == PricesOf(PreOrderAll(cs))
    decreases cs, 0
  {
    if cs != [] {
      var k := |cs| - 1;
      ForestPricesPreOrder(cs[..k]);
      TreePricesPreOrder(cs[k]);
      PreOrderAllSnoc(cs, k);
      assert cs[..k + 1] == cs;
      PricesOfAppend(PreOrderAll(cs[..k]), PreOrder(cs[k]));
    }
  }

  lemma {:induction false} PricesOfAppend(a: seq<Node>, b: seq<Node>)
    ensures PricesOf(a + b) == PricesOf(a) + PricesOf(b)
    decreases |a|
  {
    if a == [] {
      assert a + b == b;
    } else {
      assert (a + b)[0] == a[0];
      assert (a + b)[1..] == a[1..] + b;
      PricesOfAppend(a[1..], b);
    }
  }

  /** The attribute loop of the scan: a `div` is asked for its price once
      per price-container class attribute, and each price read is appended
      to `prices`. */
  method ScanAttributes(n: Node, prices: seq<Uint64>) returns (out: seq<Uint64>)
    ensures out == prices + NodePrices(n)
  {
    out := prices;
    ghost var res := PriceNodeResult(n);
    if n.kind == ElementNode && n.data == "div" {
      var i := 0;
      while i < |n.attrs|
        invariant i <= |n.attrs|
        invariant out == prices + PricesFor(res, CountPriceClasses(n.attrs[..i]))
      {
        ghost var before := PricesFor(res, CountPriceClasses(n.attrs[..i]));
        CountPriceClassesStep(n.attrs, i);
        var a := n.attrs[i];
        if a.key != "class" {
          i := i + 1;
          continue;
        }
        if Contains(a.val, PriceMarker) {
          var price := ParsePriceNode(n);
          if price.Err? {
            i := i + 1;
            continue;
          }
          AppendAssoc(prices, before, [price.value]);
          out := out + [price.value];
        }
        i := i + 1;
      }
      assert n.attrs[..|n.attrs|] == n.attrs;
    }
  }

  lemma CountPriceClassesStep(attrs: seq<Attribute>, i: nat)
    requires i < |attrs|
    ensures CountPriceClasses(attrs[..i + 1])
            == CountPriceClasses(attrs[..i]) + (if IsClassWith(attrs[i], PriceMarker) then 1 else 0)
  {
    assert attrs[..i + 1][..i] == attrs[..i];
  }

  /** The scan of the tree rooted at `n`, appending to `prices`: the
      closure inside `getPricesFromListings`. */
  method ScanNode(n: Node, prices: seq<Uint64>) returns (out: seq<Uint64>)
    ensures out == prices + TreePrices(n)
    decreases n, 1
  {
    var own := ScanAttributes(n, prices);
    out := ScanChildren(n, own);
    TreePricesUnfold(n, prices);
  }

  /** Collecting onto an accumulator in two steps collects the whole tree. */
  lemma TreePricesUnfold(n: Node, prices: seq<Uint64>)
    ensures prices + TreePrices(n) == prices + NodePrices(n) + ForestPrices(n.children)
  {
    AppendAssoc(prices, NodePrices(n), ForestPrices(n.children));
  }

  /** The loop over the children of `n` in the scan: each child's tree in
      turn. */
  method ScanChildren(n: Node, prices: seq<Uint64>) returns (out: seq<Uint64>)
    ensures out == prices + ForestPrices(n.children)
    decreases n, 0
  {
    var cs := n.children;
    out := prices;
    var j := 0;
    while j < |cs|
      invariant j <= |cs|
      invariant out == prices + ForestPrices(cs[..j])
    {
      ghost var done := ForestPrices(cs[..j]);
      out := ScanNode(cs[j], out);
      assert cs[..j + 1][..j] == cs[..j];
      AppendAssoc(prices, done, TreePrices(cs[j]));
      j := j + 1;
    }
    assert cs[..|cs|] == cs;
  }

  /** `getPricesFromListings`. */
  method GetPricesFromListings(listings: Node) returns (prices: seq<Uint64>)
    ensures prices == TreePrices(listings)
  {
    prices := ScanNode(listings, []);
  }

  /** Every collected price was read from a price container of the tree. */
  lemma {:induction false} PricesOfSound(nodes: seq<Node>, v: Uint64)
    requires v in PricesOf(nodes)
    ensures exists m :: m in nodes && PriceContainerCount(m) > 0 && PriceNodeResult(m) == Ok(v)
    decreases |nodes|
  {
    var m := nodes[0];
    if v in NodePrices(m) {
      assert m in nodes;
    } else {
      PricesOfSound(nodes[1..], v);
      var w :| w in nodes[1..] && PriceContainerCount(w) > 0 && PriceNodeResult(w) == Ok(v);
      assert w in nodes;
    }
  }

  /** Every price container of the tree whose price can be read contributes
      that price, once per price-container class attribute. */
  lemma {:induction false} PricesOfComplete(nodes: seq<Node>, i: nat)
    requires i < |nodes|
    requires PriceNodeResult(nodes[i]).Ok?
    ensures multiset(PricesOf(nodes))[PriceNodeResult(nodes[i]).value] >= PriceContainerCount(nodes[i])
    decreases i
  {
    var v := PriceNodeResult(nodes[i]).value;
    var head, tail := NodePrices(nodes[0]), PricesOf(nodes[1..]);
    assert PricesOf(nodes) == head + tail;
    CountOfAppend(head, tail, v);
    if i == 0 {
      RepeatCount(v, PriceContainerCount(nodes[0]));
    } else {
      assert nodes[1..][i - 1] == nodes[i];
      PricesOfComplete(nodes[1..], i - 1);
    }
  }

  lemma CountOfAppend(a: seq<Uint64>, b: seq<Uint64>, v: Uint64)
    ensures multiset(a + b)[v] == multiset(a)[v] + multiset(b)[v]
  {
  }

  lemma {:induction false} RepeatCount(v: Uint64, k: nat)
    ensures multiset(Repeat(v, k))[v] == k
    decreases k
  {
    if k > 0 {
      RepeatCount(v, k - 1);
    }
  }

  /** The scanner yields at most one price per price-container class
      attribute in the tree. */
  lemma {:induction false} PricesOfBound(nodes: seq<Node>)
    ensures |PricesOf(nodes)| <= PriceClassesOf(nodes)
    decreases |nodes|
  {
    if nodes != [] {
      PricesOfBound(nodes[1..]);
    }
  }

  /** A listings container yields at most one price per (`div`,
      price-container class attribute) pair below it. */
  lemma ListingPricesBound(listings: Node)
    ensures |TreePrices(listings)| <= PriceClassesOf(PreOrder(listings))
  {
    TreePricesPreOrder(listings);
    PricesOfBound(PreOrder(listings));
  }

  /** The number of price-container class attributes on the `div`s among
      `nodes`. */
  function PriceClassesOf(nodes: seq<Node>): nat {
    if nodes == [] then 0 else PriceContainerCount(nodes[0]) + PriceClassesOf(nodes[1..])
  }

  // ---------------------------------------------------------------------
  // parseHTML
  // ---------------------------------------------------------------------

  /** The prices of a results page: those of its first listings container,
      or none when the page has no such container. */
  function PagePrices(root: Node): seq<Uint64> {
    match FindListingsContainer(root)
    case None => []
    case Some(listings) => TreePrices(listings)
  }

  /** `parseHTML`. */
  method ParseHTML(root: Node) returns (prices: seq<Uint64>)
    ensures prices == PagePrices(root)
  {
    var listings := FindListingsContainer(root);
    if listings.None? {
      return [];
    }
    prices := GetPricesFromListings(listings.value);
  }

  /** Every price of a page was read from a price container inside the
      page's first listings container. */
  lemma PagePricesSound(root: Node, v: Uint64)
    requires v in PagePrices(root)
    ensures exists listings, m ::
      && FindListingsContainer(root) == Some(listings)
      && m in PreOrder(listings)
      && PriceContainerCount(m) > 0
      && PriceNodeResult(m) == Ok(v)
  {
    var listings := FindListingsContainer(root).value;
    TreePricesPreOrder(listings);
    PricesOfSound(PreOrder(listings), v);
  }

  /** A page without a listings container yields no prices. */
  lemma PagePricesWithoutListings(root: Node)
    requires forall i :: 0 <= i < |PreOrder(root)| ==> !IsListingsContainer(PreOrder(root)[i])
    ensures PagePrices(root) == []
  {
    FindListingsContainerSound(root);
  }
}
