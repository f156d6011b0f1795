/**
 * LR(1) items and the two set operations the automaton is built from:
 * closure (add an item for every production of a non-terminal right
 * after a dot, with every lookahead that can follow it) and the kernel of
 * GOTO (advance the dot over a given symbol).
 */
module Items {
  import opened Text
  import opened FirstSpec

  /** An item (left-hand side, body text, dot position, lookahead). */
  datatype Item = Item(lhs: string, body: string, dot: nat, lookahead: string)

  function BodyOf(it: Item): seq<string> {
    SplitWs(it.body)
  }

  /** The dot is at (or past) the end of the body. */
  predicate AtEnd(it: Item) {
    it.dot >= |BodyOf(it)|
  }

  function NextSymbol(it: Item): string
    requires !AtEnd(it)
  {
    BodyOf(it)[it.dot]
  }

  /** The lookaheads of the items that closure adds for `it`: FIRST of what
      follows the next symbol, then of the item's own lookahead; the item's
      lookahead itself when all of them are nullable. */
  function Lookaheads(first: FirstMap, it: Item): set<string>
    requires !AtEnd(it)
  {
    var sf := SeqFirst(first, BodyOf(it)[it.dot + 1..] + [it.lookahead]);
    (sf - {""}) + (if "" in sf then {it.lookahead} else {})
  }

  /** The fresh items (b, p, 0, l) for every body p and lookahead l. */
  function Derived(b: string, bodies: seq<string>, looks: set<string>): set<Item> {
    set p, l | p in bodies && l in looks :: Item(b, p, 0, l)
  }

  /** The items closure derives from `it`: for a non-terminal B after the
      dot, (B, p, 0, l) for every body p of B and every lookahead l. */
  function ItemGenerated(prods: Productions, first: FirstMap, it: Item): set<Item> {
    if AtEnd(it) || NextSymbol(it) !in prods then {}
    else
      var b := NextSymbol(it);
      Derived(b, prods[b], Lookaheads(first, it))
  }

  /** Everything closure derives from the items of `c` in one round. */
  function Generated(prods: Productions, first: FirstMap, c: set<Item>): set<Item> {
    set it, g | it in c && g in ItemGenerated(prods, first, it) :: g
  }

  /** `c` contains `items` and derives nothing new. */
  ghost predicate ClosedOver(prods: Productions, first: FirstMap, items: set<Item>, c: set<Item>) {
    items <= c && Generated(prods, first, c) <= c
  }

  /** `r` is the closure of `items`: the least set containing `items` that
      derives nothing new. */
  ghost predicate IsClosure(prods: Productions, first: FirstMap, items: set<Item>, r: set<Item>) {
    ClosedOver(prods, first, items, r)
    && forall c :: ClosedOver(prods, first, items, c) ==> r <= c
  }

  lemma GeneratedMono(prods: Productions, first: FirstMap, c: set<Item>, d: set<Item>)
    requires c <= d
    ensures Generated(prods, first, c) <= Generated(prods, first, d)
  {
  }

  /** The closure is unique. */
  lemma ClosureUnique(prods: Productions, first: FirstMap, items: set<Item>, r: set<Item>, s: set<Item>)
    requires IsClosure(prods, first, items, r) && IsClosure(prods, first, items, s)
    ensures r == s
  {
    assert ClosedOver(prods, first, items, s);
    assert ClosedOver(prods, first, items, r);
  }

  /** Every item the closure adds has its dot at 0, has a production of the
      grammar as its body, and its left-hand side stands right after the
      dot of some item of the closure. */
  lemma ClosureAddsOnlyDerived(prods: Productions, first: FirstMap, items: set<Item>, r: set<Item>, x: Item)
    requires IsClosure(prods, first, items, r)
    requires x in r && x !in items
    ensures x.dot == 0 && x.lhs in prods && x.body in prods[x.lhs]
    ensures exists it :: it in r && !AtEnd(it) && NextSymbol(it) == x.lhs && x.lookahead in Lookaheads(first, it)
  {
    var c := items + Generated(prods, first, r);
    GeneratedMono(prods, first, c, r);
    assert ClosedOver(prods, first, items, c);
    assert x in Generated(prods, first, r);
  }

  /** The closure of the empty set is empty. */
  lemma ClosureOfEmpty(prods: Productions, first: FirstMap, r: set<Item>)
    requires IsClosure(prods, first, {}, r)
    ensures r == {}
  {
    assert ClosedOver(prods, first, {}, {});
  }

  /** The kernel of GOTO(I, X): each item of I whose next symbol is X, with
      its dot moved over X. */
  function Kernel(items: set<Item>, x: string): set<Item> {
    set it | it in items && !AtEnd(it) && NextSymbol(it) == x :: it.(dot := it.dot + 1)
  }

  /** GOTO of a set with no item whose next symbol is X has an empty
      kernel, so its closure is empty as well. */
  lemma KernelEmpty(prods: Productions, first: FirstMap, items: set<Item>, x: string, r: set<Item>)
    requires forall it :: it in items ==> AtEnd(it) || NextSymbol(it) != x
    requires IsClosure(prods, first, Kernel(items, x), r)
    ensures Kernel(items, x) == {} && r == {}
  {
    ClosureOfEmpty(prods, first, r);
  }

  /** An item is in the kernel exactly when it comes from an item of I
      whose next symbol is X; the kernel of a set with no such item is
      empty. */
  lemma KernelMembers(items: set<Item>, x: string, k: Item)
    ensures k in Kernel(items, x) <==>
      k.dot > 0 && var src := k.(dot := k.dot - 1); src in items && !AtEnd(src) && NextSymbol(src) == x
  {
    if k in Kernel(items, x) {
      var it :| it in items && !AtEnd(it) && NextSymbol(it) == x && k == it.(dot := it.dot + 1);
      assert k.(dot := k.dot - 1) == it;
    }
    if k.dot > 0 {
      var src := k.(dot := k.dot - 1);
      if src in items && !AtEnd(src) && NextSymbol(src) == x {
        assert src.(dot := src.dot + 1) == k;
      }
    }
  }

  // ---------------------------------------------------------------------
  // A finite universe for closure, used to show the closure loop stops

  function FirstValues(first: FirstMap): set<string> {
    set s, v | s in first && v in first[s] :: v
  }

  function ItemsSymbols(items: set<Item>): set<string> {
    set it, s | it in items && s in BodyOf(it) :: s
  }

  /** Every lookahead closure can produce. */
  function LookaheadUniverse(prods: Productions, first: FirstMap, items: set<Item>): set<string> {
    FirstValues(first) + BodySymbols(prods) + ItemsSymbols(items) + (set it | it in items :: it.lookahead)
  }

  /** The items closure can add, together with the items it starts from. */
  function ClosureUniverse(prods: Productions, first: FirstMap, items: set<Item>): set<Item> {
    var la := LookaheadUniverse(prods, first, items);
    items + set b, p, l | b in prods && p in prods[b] && l in la :: Item(b, p, 0, l)
  }

  lemma FirstGetWithin(first: FirstMap, s: string)
    ensures FirstGet(first, s) <= FirstValues(first) + {s}
  {
  }

  lemma {:induction false} SeqFirstBound(first: FirstMap, syms: seq<string>, v: string)
    requires v in SeqFirst(first, syms) && v != ""
    ensures v in FirstValues(first) || v in syms
  {
    if syms != [] {
      FirstGetWithin(first, syms[0]);
      if v !in FirstGet(first, syms[0]) {
        SeqFirstBound(first, syms[1..], v);
      }
    }
  }

  /** The lookaheads closure can give an item of the universe are in the
      lookahead universe. */
  lemma LookaheadsWithin(prods: Productions, first: FirstMap, items: set<Item>, it: Item, l: string)
    requires it in ClosureUniverse(prods, first, items) && !AtEnd(it)
    requires l in Lookaheads(first, it)
    ensures l in LookaheadUniverse(prods, first, items)
  {
    var rest := BodyOf(it)[it.dot + 1..] + [it.lookahead];
    if l != it.lookahead {
      SeqFirstBound(first, rest, l);
      if l !in FirstValues(first) {
        var k :| 0 <= k < |rest| - 1 && rest[k] == l;
        assert l == BodyOf(it)[it.dot + 1 + k];
        assert l in BodyOf(it);
        if it in items {
          assert l in ItemsSymbols(items);
        } else {
          assert it.body in prods[it.lhs];
          assert l in BodiesSymbols(prods[it.lhs]);
          assert l in BodySymbols(prods);
        }
      }
    }
  }

  lemma GeneratedWithin(prods: Productions, first: FirstMap, items: set<Item>, c: set<Item>)
    requires c <= ClosureUniverse(prods, first, items)
    ensures Generated(prods, first, c) <= ClosureUniverse(prods, first, items)
  {
    forall g | g in Generated(prods, first, c) ensures g in ClosureUniverse(prods, first, items) {
      var it :| it in c && g in ItemGenerated(prods, first, it);
      LookaheadsWithin(prods, first, items, it, g.lookahead);
    }
  }
}
