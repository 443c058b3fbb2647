/** The limit order book: matching against the best resting orders, except that
    the last resting order of a side is never tried. */
module OrderBook {
  import opened Wrappers

  type Word = n: int | 0 <= n < 0x1_0000_0000_0000_0000

  datatype Side = Buy | Sell

  function Opposite(side: Side): Side { if side == Buy then Sell else Buy }

  datatype Order = Order(id: Word, side: Side, price: Word, quantity: Word)

  datatype Match = Match(bidId: Word, askId: Word, price: Word, quantity: Word)

  type Orders = multiset<Order>

  /** A buy and a sell order whose prices allow a trade. */
  predicate Crosses(x: Order, y: Order)
  {
    x.side != y.side && (if x.side == Buy then x.price >= y.price else x.price <= y.price)
  }

  predicate IsMatch(order: Order, other: Order)
  {
    order.quantity > 0 && other.quantity > 0 && order.side != other.side
    && ((order.side == Buy && order.price >= other.price) || (order.side == Sell && order.price <= other.price))
  }

  /** Trades at the price of `order`, which is the resting one. */
  function TryMatch(order: Order, other: Order): Option<Match>
  {
    if IsMatch(order, other) then
      var quantity := if order.quantity <= other.quantity then order.quantity else other.quantity;
      var (bidId, askId) := if order.side == Buy then (order.id, other.id) else (other.id, order.id);
      Some(Match(bidId, askId, order.price, quantity))
    else None
  }

  /** `Ord for Order`: by price, then by identifier. */
  predicate AtMost(x: Order, y: Order)
  {
    x.price < y.price || (x.price == y.price && x.id <= y.id)
  }

  /** Bids are kept in a max-heap, asks in a max-heap of reversed orders. */
  predicate Better(side: Side, x: Order, y: Order)
  {
    if side == Buy then AtMost(y, x) else AtMost(x, y)
  }

  predicate IsBest(side: Side, m: Orders, x: Order)
  {
    x in m && forall y <- m :: Better(side, x, y)
  }

  lemma {:induction false} HasBest(side: Side, m: Orders)
    requires m != multiset{}
    ensures exists x :: IsBest(side, m, x)
    decreases |m|
  {
    var x :| x in m;
    var rest := m - multiset{x};
    assert m == rest + multiset{x};
    if rest == multiset{} {
      assert IsBest(side, m, x);
    } else {
      HasBest(side, rest);
      var y :| IsBest(side, rest, y);
      BetterOfTwo(side, m, rest, x, y);
    }
  }

  lemma BetterOfTwo(side: Side, m: Orders, rest: Orders, x: Order, y: Order)
    requires m == rest + multiset{x} && IsBest(side, rest, y)
    ensures IsBest(side, m, if Better(side, x, y) then x else y)
  {
    assert x in m && y in m;
    forall z <- m ensures z == x || z in rest {
    }
  }

  // ---------- Quantities ----------

  ghost function Total(m: Orders): nat
    decreases |m|
  {
    if m == multiset{} then 0 else var x :| x in m; x.quantity + Total(m - multiset{x})
  }

  lemma {:induction false} TotalRemove(m: Orders, x: Order)
    requires x in m
    ensures Total(m) == x.quantity + Total(m - multiset{x})
    decreases |m|
  {
    var y :| y in m && Total(m) == y.quantity + Total(m - multiset{y});
    if y != x {
      TotalRemove(m - multiset{y}, x);
      TotalRemove(m - multiset{x}, y);
      assert m - multiset{y} - multiset{x} == m - multiset{x} - multiset{y};
    }
  }

  lemma TotalAdd(m: Orders, x: Order)
    ensures Total(m + multiset{x}) == Total(m) + x.quantity
  {
    TotalRemove(m + multiset{x}, x);
    assert m + multiset{x} - multiset{x} == m;
  }

  function Volume(matches: seq<Match>): nat
  {
    if matches == [] then 0 else Volume(matches[..|matches| - 1]) + matches[|matches| - 1].quantity
  }

  // ---------- One order to blame ----------

  ghost predicate Uncrossed(m: Orders, n: Orders)
  {
    forall x <- m, y <- n :: !Crosses(x, y)
  }

  /** All crossing pairs share one order: removing it leaves none. */
  ghost predicate OneCulprit(m: Orders, n: Orders)
  {
    || Uncrossed(m, n)
    || (exists x <- m :: Uncrossed(m - multiset{x}, n))
    || (exists y <- n :: Uncrossed(m, n - multiset{y}))
  }

  lemma UncrossedSymmetric(m: Orders, n: Orders)
    requires Uncrossed(m, n)
    ensures Uncrossed(n, m)
  {
  }

  lemma OneCulpritSymmetric(m: Orders, n: Orders)
    requires OneCulprit(m, n)
    ensures OneCulprit(n, m)
  {
    if Uncrossed(m, n) {
      UncrossedSymmetric(m, n);
    } else if x :| x in m && Uncrossed(m - multiset{x}, n) {
      UncrossedSymmetric(m - multiset{x}, n);
    } else if y :| y in n && Uncrossed(m, n - multiset{y}) {
      UncrossedSymmetric(m, n - multiset{y});
    }
  }

  lemma RemoveKeeps(m: Orders, n: Orders, z: Order)
    requires OneCulprit(m, n) && z in n
    ensures OneCulprit(m, n - multiset{z})
  {
    var rest := n - multiset{z};
    if Uncrossed(m, n) {
      UncrossedPart(m, n, rest);
    } else if x :| x in m && Uncrossed(m - multiset{x}, n) {
      UncrossedPart(m - multiset{x}, n, rest);
    } else if y :| y in n && Uncrossed(m, n - multiset{y}) {
      RemoveOther(m, n, y, z);
    }
  }

  lemma UncrossedPart(m: Orders, n: Orders, part: Orders)
    requires Uncrossed(m, n) && forall y <- part :: y in n
    ensures Uncrossed(m, part)
  {
  }

  lemma RemoveOther(m: Orders, n: Orders, y: Order, z: Order)
    requires y in n && z in n && Uncrossed(m, n - multiset{y})
    ensures OneCulprit(m, n - multiset{z})
  {
    var rest := n - multiset{z};
    if y in rest && y != z {
      UncrossedPart(m, n - multiset{y}, rest - multiset{y});
    } else {
      UncrossedPart(m, n - multiset{y}, rest);
    }
  }

  function Replaced(n: Orders, z: Order, z': Order): Orders { n - multiset{z} + multiset{z'} }

  lemma ReplaceUncrossed(m: Orders, n: Orders, z: Order, z': Order)
    requires Uncrossed(m, n) && z in n && z'.price == z.price && z'.side == z.side
    ensures Uncrossed(m, Replaced(n, z, z'))
  {
    forall x <- m, w <- Replaced(n, z, z') ensures !Crosses(x, w) {
      if w == z' { assert !Crosses(x, z); } else { assert w in n; }
    }
  }

  lemma ReplaceRest(m: Orders, n: Orders, y: Order, z: Order, z': Order)
    requires y in n && z in n && z'.price == z.price && z'.side == z.side && Uncrossed(m, n - multiset{y})
    ensures var c := if y == z then z' else y;
      c in Replaced(n, z, z') && Uncrossed(m, Replaced(n, z, z') - multiset{c})
  {
    if y == z {
      assert Replaced(n, z, z') - multiset{z'} == n - multiset{z};
    } else {
      assert z in n - multiset{y};
      forall x <- m, w <- Replaced(n, z, z') - multiset{y} ensures !Crosses(x, w) {
        if w == z' { assert !Crosses(x, z); } else { assert w in n - multiset{y}; }
      }
    }
  }

  /** A partial fill changes neither price nor side. */
  lemma ReplaceKeeps(m: Orders, n: Orders, z: Order, z': Order)
    requires OneCulprit(m, n) && z in n && z'.price == z.price && z'.side == z.side
    ensures OneCulprit(m, Replaced(n, z, z'))
  {
    if Uncrossed(m, n) {
      ReplaceUncrossed(m, n, z, z');
    } else if x :| x in m && Uncrossed(m - multiset{x}, n) {
      ReplaceUncrossed(m - multiset{x}, n, z, z');
    } else if y :| y in n && Uncrossed(m, n - multiset{y}) {
      ReplaceRest(m, n, y, z, z');
    }
  }

  lemma AddKeeps(m: Orders, n: Orders, r: Order)
    requires OneCulprit(m, n) && (|n| <= 1 || forall y <- n :: !Crosses(r, y))
    ensures OneCulprit(m + multiset{r}, n)
  {
    if |n| <= 1 {
      FewOrders(m + multiset{r}, n);
    } else if Uncrossed(m, n) {
      AddUncrossed(m, n, r);
    } else if x :| x in m && Uncrossed(m - multiset{x}, n) {
      AddUncrossed(m - multiset{x}, n, r);
      assert m + multiset{r} - multiset{x} == m - multiset{x} + multiset{r};
      assert x in m + multiset{r};
    } else if y :| y in n && Uncrossed(m, n - multiset{y}) {
      AddUncrossed(m, n - multiset{y}, r);
    }
  }

  lemma AddUncrossed(m: Orders, n: Orders, r: Order)
    requires Uncrossed(m, n) && forall y <- n :: !Crosses(r, y)
    ensures Uncrossed(m + multiset{r}, n)
  {
  }

  /** A single order can be blamed for all that crosses. */
  lemma FewOrders(m: Orders, n: Orders)
    requires |n| <= 1
    ensures OneCulprit(m, n)
  {
    if y :| y in n {
      assert |n - multiset{y}| == 0;
      assert Uncrossed(m, n - multiset{y});
    }
  }

  // ---------- Heaps ----------

  /** A binary heap, seen as its orders and the best one it shows. */
  class Heap {
    const side: Side
    var orders: Orders
    var top: Option<Order>

    ghost predicate Valid()
      reads this
    {
      if orders == multiset{} then top == None else top.Some? && IsBest(side, orders, top.value)
    }

    constructor (side: Side)
      ensures Valid() && this.side == side && orders == multiset{}
    {
      this.side, orders, top := side, multiset{}, None;
    }

    /** A heap that shows one of its best orders. */
    constructor Showing(side: Side, orders: Orders, top: Order)
      requires IsBest(side, orders, top)
      ensures Valid() && this.side == side && this.orders == orders && this.top == Some(top)
    {
      this.side, this.orders, this.top := side, orders, Some(top);
    }

    /** Which of several equally good orders surfaces is the heap's business. */
    method Settle()
      modifies `top
      ensures Valid()
    {
      if orders == multiset{} {
        top := None;
      } else {
        HasBest(side, orders);
        var x :| x in orders && IsBest(side, orders, x);
        top := Some(x);
      }
    }

    method Pop() returns (x: Option<Order>)
      requires Valid()
      modifies this
      ensures Valid() && x == old(top)
      ensures orders == if x.Some? then old(orders) - multiset{x.value} else old(orders)
    {
      x := top;
      if x.Some? {
        orders := orders - multiset{x.value};
        Settle();
      }
    }

    method Push(x: Order)
      modifies this
      ensures Valid() && orders == old(orders) + multiset{x}
    {
      orders := orders + multiset{x};
      Settle();
    }
  }

  // ---------- Matching ----------

  /** The orders of one side: on that side, and not used up. */
  ghost predicate Resting(side: Side, m: Orders)
  {
    forall x <- m :: x.side == side && x.quantity > 0
  }

  /** What remains of the last resting order taken. */
  function Leftover(taken: seq<Order>, matches: seq<Match>): Orders
    requires |taken| == |matches|
  {
    if taken == [] then multiset{} else LeftoverOf(taken[|taken| - 1], matches[|matches| - 1].quantity)
  }

  /** The trade of `order` against a resting order, at the resting price. */
  predicate Trade(order: Order, resting: Order, m: Match)
  {
    && Crosses(resting, order) && m.price == resting.price && 0 < m.quantity <= resting.quantity
    && (if order.side == Buy then m.bidId == order.id && m.askId == resting.id
        else m.bidId == resting.id && m.askId == order.id)
  }

  /** The resting orders were taken best first, and all but the last used up. */
  ghost predicate Taken(order: Order, side: Side, after: Orders, taken: seq<Order>, matches: seq<Match>)
  {
    && |taken| == |matches|
    && (forall k | 0 <= k < |taken| :: Trade(order, taken[k], matches[k]))
    && (forall k | 0 <= k < |taken| - 1 :: matches[k].quantity == taken[k].quantity)
    && (forall j, k | 0 <= j < k < |taken| :: Better(side, taken[j], taken[k]))
    && (forall k, x | 0 <= k < |taken| && x in after :: Better(side, taken[k], x))
  }

  /** All that `process_order` promises about one incoming order. */
  ghost predicate Processed(order: Order, side: Side, before: Orders, after: Orders,
                            taken: seq<Order>, matches: seq<Match>, remaining: Option<Order>)
  {
    && Taken(order, side, after, taken, matches) && Resting(side, after)
    && after + multiset(taken) == before + Leftover(taken, matches)
    && Volume(matches) + (if remaining.Some? then remaining.value.quantity else 0) == order.quantity
    && Total(after) + Volume(matches) == Total(before)
    && |taken| <= (if |before| == 0 then 0 else |before| - 1)
    && (remaining.Some? ==> remaining.value == order.(quantity := remaining.value.quantity))
    && (remaining.Some? ==> remaining.value.quantity > 0 && Leftover(taken, matches) == multiset{})
    && (remaining.Some? ==> |after| == 1 || NoneCrosses(remaining.value, after))
  }

  function LeftoverOf(resting: Order, used: nat): Orders
  {
    if used < resting.quantity then multiset{resting.(quantity := resting.quantity - used)} else multiset{}
  }

  function AfterTrade(m: Orders, resting: Order, used: nat): Orders
  {
    m - multiset{resting} + LeftoverOf(resting, used)
  }

  lemma TradeKeeps(side: Side, m: Orders, own: Orders, resting: Order, used: nat)
    requires resting in m && 0 < used <= resting.quantity && Resting(side, m) && OneCulprit(own, m)
    ensures Resting(side, AfterTrade(m, resting, used)) && OneCulprit(own, AfterTrade(m, resting, used))
    ensures Total(AfterTrade(m, resting, used)) + used == Total(m)
  {
    TotalRemove(m, resting);
    if used < resting.quantity {
      var rest := resting.(quantity := resting.quantity - used);
      TotalAdd(m - multiset{resting}, rest);
      ReplaceKeeps(own, m, resting, rest);
    } else {
      RemoveKeeps(own, m, resting);
      assert AfterTrade(m, resting, used) == m - multiset{resting};
    }
  }

  /** One trade against the best resting order, which is popped and pushed back
      when it is not used up. No quantity underflows and no empty heap is popped. */
  method Fill(order: Order, otherSide: Heap, m: Match) returns (order': Order, resting: Order)
    requires otherSide.Valid() && otherSide.top.Some? && TryMatch(otherSide.top.value, order) == Some(m)
    modifies otherSide
    ensures otherSide.Valid() && Some(resting) == old(otherSide.top)
    ensures order' == order.(quantity := order.quantity - m.quantity)
    ensures otherSide.orders == AfterTrade(old(otherSide.orders), resting, m.quantity)
  {
    order' := order.(quantity := order.quantity - m.quantity);
    var popped := otherSide.Pop();
    resting := popped.value;
    var rest := resting.(quantity := resting.quantity - m.quantity);
    if rest.quantity > 0 {
      otherSide.Push(rest);
    }
  }

  /** Where the matching loop stands. */
  ghost predicate Progress(incoming: Order, order: Order, side: Side, before: Orders, now: Orders,
                           taken: seq<Order>, matches: seq<Match>)
  {
    && order == incoming.(quantity := order.quantity) && incoming.side != side
    && Taken(incoming, side, now, taken, matches)
    && now + multiset(taken) == before + Leftover(taken, matches)
    && Volume(matches) + order.quantity == incoming.quantity
    && Total(now) + Volume(matches) == Total(before)
    && (order.quantity > 0 ==> Leftover(taken, matches) == multiset{})
  }

  /** Best-first order is kept: what is left is no better than what was taken. */
  lemma TakenOneMore(order: Order, side: Side, now: Orders, taken: seq<Order>, matches: seq<Match>,
                     resting: Order, m: Match)
    requires Taken(order, side, now, taken, matches) && Leftover(taken, matches) == multiset{}
    requires IsBest(side, now, resting) && Trade(order, resting, m)
    ensures Taken(order, side, AfterTrade(now, resting, m.quantity), taken + [resting], matches + [m])
    ensures Leftover(taken + [resting], matches + [m]) == LeftoverOf(resting, m.quantity)
    ensures Volume(matches + [m]) == Volume(matches) + m.quantity
  {
    assert (matches + [m])[..|matches|] == matches;
    AllUsedUp(order, side, now, taken, matches);
    var taken', matches', after := taken + [resting], matches + [m], AfterTrade(now, resting, m.quantity);
    forall k, x | 0 <= k < |taken'| && x in after ensures Better(side, taken'[k], x) {
      WorseLeft(order, side, now, taken, matches, resting, m, x);
    }
    assert forall k | 0 <= k < |taken| :: Better(side, taken[k], resting);
    assert forall k | 0 <= k < |taken'| - 1 :: matches'[k].quantity == taken'[k].quantity;
  }

  lemma AllUsedUp(order: Order, side: Side, now: Orders, taken: seq<Order>, matches: seq<Match>)
    requires Taken(order, side, now, taken, matches) && Leftover(taken, matches) == multiset{}
    ensures forall k | 0 <= k < |taken| :: matches[k].quantity == taken[k].quantity
  {
    if taken != [] {
      var k := |taken| - 1;
      assert Trade(order, taken[k], matches[k]);
    }
  }

  lemma WorseLeft(order: Order, side: Side, now: Orders, taken: seq<Order>, matches: seq<Match>,
                  resting: Order, m: Match, x: Order)
    requires Taken(order, side, now, taken, matches) && IsBest(side, now, resting)
    requires x in AfterTrade(now, resting, m.quantity)
    ensures Better(side, resting, x) && forall k | 0 <= k < |taken| :: Better(side, taken[k], x)
  {
    if x !in now {
      assert x == resting.(quantity := x.quantity);
    }
  }

  lemma BalanceOneMore(before: Orders, now: Orders, taken: seq<Order>, resting: Order, used: nat)
    requires now + multiset(taken) == before && resting in now
    ensures AfterTrade(now, resting, used) + multiset(taken + [resting]) == before + LeftoverOf(resting, used)
  {
    var left := now - multiset{resting};
    assert now == left + multiset{resting};
    assert multiset(taken + [resting]) == multiset(taken) + multiset{resting};
    assert left + LeftoverOf(resting, used) + (multiset(taken) + multiset{resting})
        == left + multiset{resting} + multiset(taken) + LeftoverOf(resting, used);
  }

  lemma ProgressOneMore(incoming: Order, order: Order, side: Side, before: Orders, now: Orders, own: Orders,
                        taken: seq<Order>, matches: seq<Match>, resting: Order, m: Match)
    requires Progress(incoming, order, side, before, now, taken, matches)
    requires Resting(side, now) && OneCulprit(own, now)
    requires IsBest(side, now, resting) && TryMatch(resting, order) == Some(m)
    ensures Progress(incoming, order.(quantity := order.quantity - m.quantity), side, before,
                     AfterTrade(now, resting, m.quantity), taken + [resting], matches + [m])
    ensures Resting(side, AfterTrade(now, resting, m.quantity)) && OneCulprit(own, AfterTrade(now, resting, m.quantity))
  {
    TakenOneMore(incoming, side, now, taken, matches, resting, m);
    TradeKeeps(side, now, own, resting, m.quantity);
    assert now + multiset(taken) == before;
    BalanceOneMore(before, now, taken, resting, m.quantity);
  }

  ghost predicate Underway(incoming: Order, order: Order, h: Heap, before: Orders, own: Orders,
                           taken: seq<Order>, matches: seq<Match>)
    reads h
  {
    && h.Valid() && OneCulprit(own, h.orders) && Resting(h.side, h.orders)
    && Progress(incoming, order, h.side, before, h.orders, taken, matches)
  }

  /** One iteration that has not given up: a trade with the best resting order,
      or the discovery that it does not match. */
  method MatchBest(incoming: Order, order: Order, otherSide: Heap, matches: seq<Match>,
                   ghost before: Orders, ghost own: Orders, ghost taken: seq<Order>)
    returns (order': Order, matches': seq<Match>, ghost taken': seq<Order>, done: bool)
    requires Underway(incoming, order, otherSide, before, own, taken, matches)
    modifies otherSide
    ensures Underway(incoming, order', otherSide, before, own, taken', matches')
    ensures if done then taken' == taken && (order'.quantity > 0 ==> NoneCrosses(order', otherSide.orders))
            else |taken'| == |taken| + 1 && taken <= taken'
    ensures if done then otherSide.top == old(otherSide.top) else Some(taken'[|taken|]) == old(otherSide.top)
  {
    var best := otherSide.top;
    var m := if best.Some? then TryMatch(best.value, order) else None;
    if m.Some? {
      ProgressOneMore(incoming, order, otherSide.side, before, otherSide.orders, own,
                      taken, matches, best.value, m.value);
      var resting;
      order', resting := Fill(order, otherSide, m.value);
      taken', matches', done := taken + [resting], matches + [m.value], false;
    } else {
      NoMatchNoCross(order, otherSide.side, otherSide.orders, best);
      order', taken', matches', done := order, taken, matches, true;
    }
  }

  /** `process_order`. The loop runs once less than there are resting orders. */
  method ProcessOrder(incoming: Order, otherSide: Heap, ghost own: Orders)
    returns (matches: seq<Match>, remaining: Option<Order>, ghost taken: seq<Order>)
    requires otherSide.Valid() && Resting(otherSide.side, otherSide.orders) && incoming.side != otherSide.side
    requires OneCulprit(own, otherSide.orders)
    modifies otherSide
    ensures otherSide.Valid() && OneCulprit(own, otherSide.orders)
    ensures Processed(incoming, otherSide.side, old(otherSide.orders), otherSide.orders, taken, matches, remaining)
    ensures taken != [] ==> Some(taken[0]) == old(otherSide.top)
  {
    var order := incoming;
    matches, taken := [], [];
    var done := false;
    ghost var before := otherSide.orders;
    var i, n := 1, |otherSide.orders|;
    while i < n
      invariant 1 <= i && (n > 0 ==> i <= n)
      invariant Underway(incoming, order, otherSide, before, own, taken, matches) && |taken| < i
      invariant if taken == [] then otherSide.top == old(otherSide.top) else Some(taken[0]) == old(otherSide.top)
      invariant if done then order.quantity > 0 ==> NoneCrosses(order, otherSide.orders) else |taken| == i - 1
    {
      if !done {
        order, matches, taken, done := MatchBest(incoming, order, otherSide, matches, before, own, taken);
      }
      i := i + 1;
    }
    remaining := if order.quantity > 0 then Some(order) else None;
    ProgressDone(incoming, order, otherSide.side, before, otherSide.orders, taken, matches, done);
  }

  lemma ProgressDone(incoming: Order, order: Order, side: Side, before: Orders, now: Orders,
                     taken: seq<Order>, matches: seq<Match>, done: bool)
    requires Progress(incoming, order, side, before, now, taken, matches) && Resting(side, now)
    requires |taken| <= (if |before| == 0 then 0 else |before| - 1)
    requires order.quantity > 0 ==> if done then NoneCrosses(order, now) else |taken| + 1 >= |before|
    ensures Processed(incoming, side, before, now, taken, matches, if order.quantity > 0 then Some(order) else None)
  {
    Counted(before, now, taken, Leftover(taken, matches));
  }

  lemma Counted(before: Orders, now: Orders, taken: seq<Order>, leftover: Orders)
    requires now + multiset(taken) == before + leftover
    ensures |now| + |taken| == |before| + |leftover|
  {
    assert |now + multiset(taken)| == |now| + |taken|;
  }

  /** Of two asks taken, the one taken first has the lower price, or the smaller
      identifier at the same price; of two bids, the higher price or the larger
      identifier. So it is with what was taken and what is left. */
  lemma BestFirst(order: Order, side: Side, before: Orders, after: Orders,
                  taken: seq<Order>, matches: seq<Match>, remaining: Option<Order>, k: nat, y: Order)
    requires Processed(order, side, before, after, taken, matches, remaining) && k < |taken|
    requires y in taken[k + 1..] || y in after
    ensures side == Sell ==> taken[k].price < y.price || (taken[k].price == y.price && taken[k].id <= y.id)
    ensures side == Buy ==> taken[k].price > y.price || (taken[k].price == y.price && taken[k].id >= y.id)
  {
    if y in taken[k + 1..] {
      var i :| 0 <= i < |taken[k + 1..]| && taken[k + 1..][i] == y;
      assert Better(side, taken[k], taken[k + 1 + i]);
    }
  }

  /** A trade names its two orders and is made at the resting price, which the
      incoming order accepts. */
  lemma PricesKept(order: Order, side: Side, before: Orders, after: Orders,
                   taken: seq<Order>, matches: seq<Match>, remaining: Option<Order>, k: nat)
    requires Processed(order, side, before, after, taken, matches, remaining) && k < |taken|
    ensures matches[k].price == taken[k].price && 0 < matches[k].quantity <= taken[k].quantity
    ensures order.side == Buy ==>
      matches[k].bidId == order.id && matches[k].askId == taken[k].id && taken[k].price <= order.price
    ensures order.side == Sell ==>
      matches[k].askId == order.id && matches[k].bidId == taken[k].id && taken[k].price >= order.price
  {
    assert Trade(order, taken[k], matches[k]);
  }

  /** What is left of the order faces one resting order, or only prices it refuses. */
  lemma RemainderRefused(order: Order, side: Side, before: Orders, after: Orders,
                         taken: seq<Order>, matches: seq<Match>, remaining: Option<Order>, x: Order)
    requires Processed(order, side, before, after, taken, matches, remaining) && order.side != side
    requires remaining.Some? && |after| != 1 && x in after
    ensures order.side == Buy ==> x.side == Sell && order.price < x.price
    ensures order.side == Sell ==> x.side == Buy && order.price > x.price
  {
    assert NoneCrosses(remaining.value, after) && x.side == side;
  }

  ghost predicate NoneCrosses(order: Order, m: Orders) { forall x <- m :: !Crosses(order, x) }

  /** When the best resting order does not match, none crosses. */
  lemma NoMatchNoCross(order: Order, side: Side, m: Orders, best: Option<Order>)
    requires order.side != side && Resting(side, m)
    requires if m == multiset{} then best == None else best.Some? && IsBest(side, m, best.value)
    requires best.Some? ==> TryMatch(best.value, order).None?
    ensures order.quantity > 0 ==> NoneCrosses(order, m)
  {
  }

  // ---------- The book ----------

  function With(m: Orders, remaining: Option<Order>): Orders
  {
    if remaining.Some? then m + multiset{remaining.value} else m
  }

  class Book {
    const bids: Heap
    const asks: Heap

    /** Every reachable book: all crossing pairs share one order. */
    ghost predicate Valid()
      reads this, bids, asks
    {
      && bids != asks && bids.side == Buy && asks.side == Sell && bids.Valid() && asks.Valid()
      && Resting(Buy, bids.orders) && Resting(Sell, asks.orders)
      && OneCulprit(bids.orders, asks.orders)
    }

    constructor ()
      ensures Valid() && fresh(bids) && fresh(asks) && bids.orders == multiset{} == asks.orders
    {
      bids := new Heap(Buy);
      asks := new Heap(Sell);
    }

    ghost function Own(side: Side): Orders
      reads this, bids, asks
    {
      if side == Buy then bids.orders else asks.orders
    }

    ghost function Other(side: Side): Orders
      reads this, bids, asks
    {
      if side == Buy then asks.orders else bids.orders
    }

    /** `add_order`; an order without quantity or price panics and changes nothing. */
    method AddOrder(order: Order)
      returns (r: Option<seq<Match>>, ghost taken: seq<Order>, ghost remaining: Option<Order>)
      requires Valid()
      modifies bids, asks
      ensures Valid() && (r.Some? <==> order.quantity > 0 && order.price > 0)
      ensures r.None? ==> bids.orders == old(bids.orders) && asks.orders == old(asks.orders)
      ensures r.Some? ==>
        && Own(order.side) == With(old(Own(order.side)), remaining)
        && Processed(order, Opposite(order.side), old(Other(order.side)), Other(order.side), taken, r.value, remaining)
    {
      taken, remaining := [], None;
      if order.quantity == 0 || order.price == 0 { return None, taken, remaining; }
      var matches, rest;
      match order.side
      case Buy =>
        matches, rest, taken := ProcessOrder(order, asks, bids.orders);
        if rest.Some? {
          AddKeeps(bids.orders, asks.orders, rest.value);
          bids.Push(rest.value);
        }
        return Some(matches), taken, rest;
      case Sell =>
        OneCulpritSymmetric(bids.orders, asks.orders);
        matches, rest, taken := ProcessOrder(order, bids, asks.orders);
        if rest.Some? {
          AddKeeps(asks.orders, bids.orders, rest.value);
          asks.Push(rest.value);
        }
        OneCulpritSymmetric(asks.orders, bids.orders);
        return Some(matches), taken, rest;
    }
  }

  // ---------- When the book ends up crossed ----------

  /** Orders of one price and identifier tie. */
  ghost predicate IsWorst(side: Side, m: Orders, w: Order)
  {
    w in m && forall y <- m :: Better(side, y, w)
  }

  lemma HasWorst(side: Side, m: Orders) returns (w: Order)
    requires m != multiset{}
    ensures IsWorst(side, m, w)
  {
    HasBest(Opposite(side), m);
    w :| IsBest(Opposite(side), m, w);
  }

  /** A resting order that the loop has not reached. */
  lemma SomeStays(before: Orders, after: Orders, taken: seq<Order>, leftover: Orders) returns (z: Order)
    requires |leftover| <= 1 && after + multiset(taken) == before + leftover && |taken| < |before|
    ensures z in before && z in after
  {
    assert |after| + |taken| == |after + multiset(taken)| == |before + leftover| == |before| + |leftover|;
    var rest := after - leftover;
    assert |after| <= |rest| + |leftover| by { RestSize(after, leftover); }
    assert rest != multiset{};
    z :| z in rest;
    assert after[z] > leftover[z];
    assert (before + leftover)[z] == (after + multiset(taken))[z];
  }

  lemma RestSize(m: Orders, n: Orders)
    ensures |m| <= |m - n| + |n|
  {
    var common := m * n;
    assert m == (m - n) + common;
    assert n == (n - common) + common;
  }

  /** The loop never uses up all the worst resting orders: one stays as it was. */
  lemma WorstStays(order: Order, side: Side, before: Orders, after: Orders,
                   taken: seq<Order>, matches: seq<Match>, remaining: Option<Order>) returns (w: Order)
    requires Processed(order, side, before, after, taken, matches, remaining) && before != multiset{}
    ensures IsWorst(side, before, w) && w in after
  {
    var z := SomeStays(before, after, taken, Leftover(taken, matches));
    w := HasWorst(side, before);
    if w !in after {
      assert w in after + multiset(taken) by { assert w in before + Leftover(taken, matches); }
      var k :| 0 <= k < |taken| && taken[k] == w;
      assert Better(side, taken[k], z);
      w := z;
    }
  }

  /** The order crosses the resting order `w` and is larger than all the others
      together: a condition on the book before the call. */
  ghost predicate Swamps(order: Order, before: Orders, w: Order)
  {
    Crosses(order, w) && order.quantity > Total(before) - w.quantity
  }

  ghost predicate RemainderCrosses(remaining: Option<Order>, after: Orders)
  {
    remaining.Some? && !NoneCrosses(remaining.value, after)
  }

  /** A remainder that crosses faces a single resting order, one of the worst, and
      the incoming order swamped the side but for it. */
  lemma CrossedOnlyIf(order: Order, side: Side, before: Orders, after: Orders,
                      taken: seq<Order>, matches: seq<Match>, remaining: Option<Order>) returns (w: Order)
    requires Processed(order, side, before, after, taken, matches, remaining)
    requires RemainderCrosses(remaining, after)
    ensures after == multiset{w} && IsWorst(side, before, w) && Swamps(order, before, w)
  {
    w :| w in after && Crosses(remaining.value, w);
    assert |after - multiset{w}| == 0;
    assert after - multiset{w} == multiset{};
    assert after == multiset{w};
    assert before == after + multiset(taken);
    forall y <- before ensures Better(side, y, w) {
      if y != w { assert y in multiset(taken) && y in taken; }
    }
    TotalRemove(after, w);
  }

  /** When the incoming order swamps the side but for any one of the worst resting
      orders, its remainder crosses. */
  lemma CrossedIf(order: Order, side: Side, before: Orders, after: Orders,
                  taken: seq<Order>, matches: seq<Match>, remaining: Option<Order>)
    requires Processed(order, side, before, after, taken, matches, remaining) && before != multiset{}
    requires forall w | IsWorst(side, before, w) :: Swamps(order, before, w)
    ensures RemainderCrosses(remaining, after)
  {
    var w := WorstStays(order, side, before, after, taken, matches, remaining);
    TotalRemove(after, w);
    assert remaining.Some?;
    assert Crosses(remaining.value, w);
  }

  /** Adding to an uncrossed book crosses it only if some worst resting order meets
      the condition, and it does if they all do. Where tied orders of different
      quantities disagree, the heap decides: see `TieExample`. */
  lemma BookCrossed(order: Order, side: Side, own: Orders, before: Orders, after: Orders,
                    taken: seq<Order>, matches: seq<Match>, remaining: Option<Order>)
    requires Processed(order, side, before, after, taken, matches, remaining)
    requires Uncrossed(own, before)
    ensures !Uncrossed(With(own, remaining), after) ==> exists w :: IsWorst(side, before, w) && Swamps(order, before, w)
    ensures before != multiset{} && (forall w | IsWorst(side, before, w) :: Swamps(order, before, w))
      ==> !Uncrossed(With(own, remaining), after)
  {
    CrossedByRemainder(order, side, own, before, after, taken, matches, remaining);
    if RemainderCrosses(remaining, after) {
      var w := CrossedOnlyIf(order, side, before, after, taken, matches, remaining);
    }
    if before != multiset{} && forall w | IsWorst(side, before, w) :: Swamps(order, before, w) {
      CrossedIf(order, side, before, after, taken, matches, remaining);
    }
  }

  lemma CrossedByRemainder(order: Order, side: Side, own: Orders, before: Orders, after: Orders,
                           taken: seq<Order>, matches: seq<Match>, remaining: Option<Order>)
    requires Processed(order, side, before, after, taken, matches, remaining) && Uncrossed(own, before)
    ensures !Uncrossed(With(own, remaining), after) <==> RemainderCrosses(remaining, after)
  {
    OldStaysUncrossed(order, side, own, before, after, taken, matches, remaining);
    if !Uncrossed(With(own, remaining), after) {
      var x, y :| x in With(own, remaining) && y in after && Crosses(x, y);
      assert x !in own;
    }
  }

  /** The worst resting orders, if they tie, are of one quantity. */
  ghost predicate TiesAgree(side: Side, m: Orders)
  {
    forall x, y | IsWorst(side, m, x) && IsWorst(side, m, y) :: x.quantity == y.quantity
  }

  /** Distinct prices or identifiers leave no ties. */
  lemma DistinctTiesAgree(side: Side, m: Orders)
    requires Resting(side, m) && forall x <- m, y <- m :: x.price == y.price && x.id == y.id ==> x == y
    ensures TiesAgree(side, m)
  {
  }

  /** Then the remainder crosses a resting order if and only if the order swamps the
      side but for its worst order. */
  lemma CrossedExactly(order: Order, side: Side, before: Orders, after: Orders,
                       taken: seq<Order>, matches: seq<Match>, remaining: Option<Order>, w: Order)
    requires Processed(order, side, before, after, taken, matches, remaining) && Resting(side, before)
    requires TiesAgree(side, before) && IsWorst(side, before, w)
    ensures RemainderCrosses(remaining, after) <==> Swamps(order, before, w)
  {
    forall v | IsWorst(side, before, v) ensures Swamps(order, before, v) <==> Swamps(order, before, w) {
      assert v.price == w.price && v.side == w.side && v.quantity == w.quantity;
    }
    if RemainderCrosses(remaining, after) {
      var v := CrossedOnlyIf(order, side, before, after, taken, matches, remaining);
    }
    if Swamps(order, before, w) {
      CrossedIf(order, side, before, after, taken, matches, remaining);
    }
  }

  /** And so does the book, when it was not crossed before. */
  lemma BookCrossedExactly(order: Order, side: Side, own: Orders, before: Orders, after: Orders,
                           taken: seq<Order>, matches: seq<Match>, remaining: Option<Order>, w: Order)
    requires Processed(order, side, before, after, taken, matches, remaining) && Resting(side, before)
    requires TiesAgree(side, before) && IsWorst(side, before, w) && Uncrossed(own, before)
    ensures !Uncrossed(With(own, remaining), after) <==> Swamps(order, before, w)
  {
    CrossedExactly(order, side, before, after, taken, matches, remaining, w);
    CrossedByRemainder(order, side, own, before, after, taken, matches, remaining);
  }

  const BIG := Order(1, Sell, 10, 5)
  const SMALL := Order(1, Sell, 10, 1)
  const BID := Order(2, Buy, 10, 3)

  /** Two asks of one price and identifier: a bid may meet either first, and only
      one of the two outcomes leaves the book crossed. */
  lemma TieExample()
    ensures var rest := Some(BID.(quantity := 2));
      && Processed(BID, Sell, multiset{BIG, SMALL}, multiset{BIG}, [SMALL], [Match(2, 1, 10, 1)], rest)
      && RemainderCrosses(rest, multiset{BIG})
    ensures var after := multiset{BIG.(quantity := 2), SMALL};
      && Processed(BID, Sell, multiset{BIG, SMALL}, after, [BIG], [Match(2, 1, 10, 3)], None)
      && !RemainderCrosses(None, after)
  {
    TotalTwo(BIG, SMALL);
    TotalTwo(BIG.(quantity := 2), SMALL);
    VolumeOne(Match(2, 1, 10, 1));
    VolumeOne(Match(2, 1, 10, 3));
    SmallFirst();
    BigFirst();
  }

  lemma SmallFirst()
    ensures Taken(BID, Sell, multiset{BIG}, [SMALL], [Match(2, 1, 10, 1)])
    ensures Leftover([SMALL], [Match(2, 1, 10, 1)]) == multiset{}
    ensures multiset{BIG} + multiset([SMALL]) == multiset{BIG, SMALL} + multiset{}
    ensures !NoneCrosses(BID.(quantity := 2), multiset{BIG})
  {
    assert Crosses(BID.(quantity := 2), BIG);
  }

  lemma BigFirst()
    ensures Taken(BID, Sell, multiset{BIG.(quantity := 2), SMALL}, [BIG], [Match(2, 1, 10, 3)])
    ensures Leftover([BIG], [Match(2, 1, 10, 3)]) == multiset{BIG.(quantity := 2)}
    ensures multiset{BIG.(quantity := 2), SMALL} + multiset([BIG])
      == multiset{BIG, SMALL} + multiset{BIG.(quantity := 2)}
  {
  }

  lemma VolumeOne(m: Match)
    ensures Volume([m]) == m.quantity
  {
    assert [m][..0] == [];
  }

  /** Both outcomes are reached: on two heaps of the same orders that show different
      ones of them, as they do when these were added in different orders. */
  method TieRuns() returns (crossed: Option<Order>, quiet: Option<Order>, h1: Heap, h2: Heap)
    ensures RemainderCrosses(crossed, h1.orders) && !RemainderCrosses(quiet, h2.orders)
  {
    assert Crosses(BID, BIG) && Better(Sell, BIG, SMALL) && Better(Sell, SMALL, BIG);
    assert OneCulprit(multiset{}, multiset{BIG, SMALL});
    h1 := new Heap.Showing(Sell, multiset{BIG, SMALL}, SMALL);
    h2 := new Heap.Showing(Sell, multiset{BIG, SMALL}, BIG);
    var matches;
    ghost var taken;
    matches, crossed, taken := ProcessOrder(BID, h1, multiset{});
    TieTaken(h1.orders, taken, matches, crossed);
    matches, quiet, taken := ProcessOrder(BID, h2, multiset{});
    TieTaken(h2.orders, taken, matches, quiet);
  }

  /** What a run on the tied orders comes to, by the order it takes first. */
  lemma TieTaken(after: Orders, taken: seq<Order>, matches: seq<Match>, rest: Option<Order>)
    requires Processed(BID, Sell, multiset{BIG, SMALL}, after, taken, matches, rest)
    ensures taken != []
    ensures taken[0] == SMALL ==> RemainderCrosses(rest, after)
    ensures taken[0] == BIG ==> rest == None
  {
    TieTakes(after, taken, matches, rest);
    VolumeOne(matches[0]);
    var q := matches[0].quantity;
    assert taken == [taken[0]] && matches == [matches[0]] && Trade(BID, taken[0], matches[0]);
    assert Leftover(taken, matches) == LeftoverOf(taken[0], q) && 0 < q <= 3;
    assert LeftoverOf(BIG, q) == multiset{BIG.(quantity := 5 - q)};
    if taken[0] == SMALL {
      assert after + multiset{SMALL} == multiset{BIG, SMALL};
      assert BIG in after && Crosses(rest.value, BIG);
    }
  }

  /** The bid takes exactly one of the orders. */
  lemma TieTakes(after: Orders, taken: seq<Order>, matches: seq<Match>, rest: Option<Order>)
    requires Processed(BID, Sell, multiset{BIG, SMALL}, after, taken, matches, rest)
    ensures |taken| == 1
  {
    assert |multiset{BIG, SMALL}| == 2;
    assert !NoneCrosses(BID, multiset{BIG, SMALL}) by { assert Crosses(BID, BIG); }
    assert taken == [] ==> after + multiset(taken) == after;
    assert taken == [] ==> after == multiset{BIG, SMALL} && rest == Some(BID);
  }

  lemma TotalTwo(x: Order, y: Order)
    ensures Total(multiset{x}) == x.quantity && Total(multiset{x, y}) == x.quantity + y.quantity
  {
    TotalAdd(multiset{}, x);
    TotalAdd(multiset{x}, y);
    assert multiset{} + multiset{x} == multiset{x};
    assert multiset{x} + multiset{y} == multiset{x, y};
  }

  lemma OldStaysUncrossed(order: Order, side: Side, own: Orders, before: Orders, after: Orders,
                          taken: seq<Order>, matches: seq<Match>, remaining: Option<Order>)
    requires Processed(order, side, before, after, taken, matches, remaining) && Uncrossed(own, before)
    ensures Uncrossed(own, after)
  {
    forall x <- own, y <- after ensures !Crosses(x, y) {
      assert y in before + Leftover(taken, matches);
      if y !in before {
        var k := |taken| - 1;
        assert Trade(order, taken[k], matches[k]);
        LeftoverPrice(before, after, taken, matches, y);
      }
    }
  }

  lemma LeftoverPrice(before: Orders, after: Orders, taken: seq<Order>, matches: seq<Match>, y: Order)
    requires |taken| == |matches| && taken != [] && y in Leftover(taken, matches)
    requires matches[|taken| - 1].quantity > 0
    requires after + multiset(taken) == before + Leftover(taken, matches)
    ensures exists z <- before :: z.price == y.price && z.side == y.side
  {
    var last := taken[|taken| - 1];
    assert last in multiset(taken);
    assert last in before + Leftover(taken, matches);
    assert last != y;
  }

  /** A lone resting order is never tried, whatever its price. */
  lemma LoneOrderUntouched(order: Order, side: Side, before: Orders, after: Orders,
                           taken: seq<Order>, matches: seq<Match>, remaining: Option<Order>)
    requires Processed(order, side, before, after, taken, matches, remaining) && order.quantity > 0 && |before| <= 1
    ensures matches == [] && remaining == Some(order) && after == before
  {
    assert taken == [] && matches == [];
    assert after + multiset(taken) == after && before + Leftover(taken, matches) == before;
  }

  /** Two orders suffice: one ask of price 10, then a bid of price 20. */
  method CrossedExample() returns (b: Book)
    ensures b.Valid() && !Uncrossed(b.bids.orders, b.asks.orders)
  {
    b := new Book();
    var ask, bid := Order(1, Sell, 10, 5), Order(2, Buy, 20, 5);
    ghost var taken, remaining;
    var r;
    r, taken, remaining := b.AddOrder(ask);
    LoneOrderUntouched(ask, Buy, multiset{}, b.bids.orders, taken, r.value, remaining);
    assert b.asks.orders == multiset{ask};
    r, taken, remaining := b.AddOrder(bid);
    LoneOrderUntouched(bid, Sell, multiset{ask}, b.asks.orders, taken, r.value, remaining);
    assert bid in b.bids.orders && ask in b.asks.orders && Crosses(bid, ask);
  }
}
