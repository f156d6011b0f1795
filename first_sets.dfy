/**
 * FIRST sets of a context-free grammar whose productions map each
 * non-terminal to a list of bodies, every body a white-space separated
 * string of symbols.  The empty string "" is the marker for "can derive
 * the empty string" (nullable).
 *
 * The FIRST sets are specified here as the least assignment that
 * contains the initial one (every terminal t maps to {t}) and is closed
 * under every production; `FirstSets` computes it by plain (Jacobi)
 * iteration.  The order-dependent in-place computation of the grammar
 * class is proved equal to it.
 */
module FirstSpec {
  import opened Text

  type Productions = map<string, seq<string>>
  type FirstMap = map<string, set<string>>

  // ---------------------------------------------------------------------
  // Symbols of a grammar

  /** The symbols occurring in a list of bodies. */
  function BodiesSymbols(bodies: seq<string>): set<string> {
    set b, s | b in bodies && s in SplitWs(b) :: s
  }

  /** The symbols occurring in any production body. */
  function BodySymbols(prods: Productions): set<string> {
    set nt, s | nt in prods && s in BodiesSymbols(prods[nt]) :: s
  }

  /** The terminals: body symbols that are not production keys. */
  function TerminalsOf(prods: Productions): set<string> {
    BodySymbols(prods) - prods.Keys
  }

  /** What the FIRST computation needs of the symbol sets: every key and
      every body symbol has an entry, and no terminal is the empty string. */
  predicate WellFormed(prods: Productions, terminals: set<string>, nonTerminals: set<string>) {
    prods.Keys <= nonTerminals
    && BodySymbols(prods) <= nonTerminals + terminals
    && "" !in terminals
  }

  // ---------------------------------------------------------------------
  // FIRST of a sequence of symbols

  /** FIRST of one symbol; a symbol without an entry stands for itself
      (Python's `first_sets.get(symbol, {symbol})`). */
  function FirstGet(first: FirstMap, s: string): set<string> {
    if s in first then first[s] else {s}
  }

  /** FIRST of a sequence of symbols: the non-empty members of FIRST of each
      symbol up to and including the first non-nullable one, plus "" when
      every symbol is nullable (so FIRST of [] is {""}). */
  function SeqFirst(first: FirstMap, syms: seq<string>): set<string> {
    if syms == [] then {""}
    else
      var f := FirstGet(first, syms[0]);
      (f - {""}) + (if "" in f then SeqFirst(first, syms[1..]) else {})
  }

  predicate AllNullable(first: FirstMap, syms: seq<string>) {
    forall k :: 0 <= k < |syms| ==> "" in FirstGet(first, syms[k])
  }

  /** Reference reading of `SeqFirst`: "" is in it exactly when every symbol
      is nullable, and a non-empty v is in it exactly when v is in FIRST of
      some symbol that only nullable symbols precede. */
  lemma {:induction false} SeqFirstMembers(first: FirstMap, syms: seq<string>, v: string)
    ensures "" in SeqFirst(first, syms) <==> AllNullable(first, syms)
    ensures v != "" ==>
      (v in SeqFirst(first, syms) <==>
        exists k :: 0 <= k < |syms| && v in FirstGet(first, syms[k]) && AllNullable(first, syms[..k]))
  {
    if syms != [] {
      SeqFirstMembers(first, syms[1..], v);
      var f := FirstGet(first, syms[0]);
      if v != "" {
        if v in SeqFirst(first, syms) {
          if v in f {
            assert syms[..0] == [];
          } else {
            var k :| 0 <= k < |syms[1..]| && v in FirstGet(first, syms[1..][k]) && AllNullable(first, syms[1..][..k]);
            assert syms[..k + 1] == [syms[0]] + syms[1..][..k];
            assert AllNullable(first, syms[..k + 1]);
          }
        }
        if exists k :: 0 <= k < |syms| && v in FirstGet(first, syms[k]) && AllNullable(first, syms[..k]) {
          var k :| 0 <= k < |syms| && v in FirstGet(first, syms[k]) && AllNullable(first, syms[..k]);
          if k > 0 {
            assert syms[..k][0] == syms[0];
            assert syms[1..][..k - 1] == syms[..k][1..];
            assert syms[1..][k - 1] == syms[k];
          }
        }
      }
      if AllNullable(first, syms) {
        assert AllNullable(first, syms[1..]) by {
          forall k | 0 <= k < |syms[1..]| ensures "" in FirstGet(first, syms[1..][k]) {
            assert syms[1..][k] == syms[k + 1];
          }
        }
      } else if "" in f {
        var k :| 0 <= k < |syms| && "" !in FirstGet(first, syms[k]);
        assert k > 0 && syms[1..][k - 1] == syms[k];
      }
    }
  }

  // ---------------------------------------------------------------------
  // Assignments of FIRST sets and their order

  /** Pointwise inclusion between two assignments with the same keys. */
  predicate Below(f: FirstMap, g: FirstMap) {
    f.Keys == g.Keys && forall s :: s in f ==> f[s] <= g[s]
  }

  predicate ValuesWithin(f: FirstMap, u: set<string>) {
    forall s :: s in f ==> f[s] <= u
  }

  /** The starting assignment: {t} for a terminal, {} for anything else. */
  function Init(terminals: set<string>, nonTerminals: set<string>): FirstMap {
    map s | s in nonTerminals + terminals :: if s in terminals then {s} else {}
  }

  /** No production adds anything: FIRST of every body is already inside
      FIRST of its left-hand side. */
  predicate Closed(prods: Productions, f: FirstMap) {
    forall nt, i :: nt in prods && 0 <= i < |prods[nt]| ==>
      nt in f && SeqFirst(f, SplitWs(prods[nt][i])) <= f[nt]
  }

  /** What all the bodies of one non-terminal contribute. */
  function Contrib(f: FirstMap, bodies: seq<string>): set<string> {
    if bodies == [] then {} else SeqFirst(f, SplitWs(bodies[0])) + Contrib(f, bodies[1..])
  }

  /** One round of every production at once. */
  function Step(prods: Productions, f: FirstMap): FirstMap {
    map s | s in f :: if s in prods then f[s] + Contrib(f, prods[s]) else f[s]
  }

  lemma {:induction false} SeqFirstMono(f: FirstMap, g: FirstMap, syms: seq<string>)
    requires Below(f, g)
    ensures SeqFirst(f, syms) <= SeqFirst(g, syms)
  {
    if syms != [] {
      SeqFirstMono(f, g, syms[1..]);
    }
  }

  lemma {:induction false} SeqFirstWithin(f: FirstMap, syms: seq<string>, u: set<string>)
    requires ValuesWithin(f, u) && "" in u
    requires forall k :: 0 <= k < |syms| ==> syms[k] in f
    ensures SeqFirst(f, syms) <= u
  {
    if syms != [] {
      SeqFirstWithin(f, syms[1..], u);
    }
  }

  lemma {:induction false} ContribMono(f: FirstMap, g: FirstMap, bodies: seq<string>)
    requires Below(f, g)
    ensures Contrib(f, bodies) <= Contrib(g, bodies)
  {
    if bodies != [] {
      SeqFirstMono(f, g, SplitWs(bodies[0]));
      ContribMono(f, g, bodies[1..]);
    }
  }

  /** `Contrib` is the union of what each body contributes. */
  lemma {:induction false} ContribMembers(f: FirstMap, bodies: seq<string>, v: string)
    ensures v in Contrib(f, bodies) <==>
      exists i :: 0 <= i < |bodies| && v in SeqFirst(f, SplitWs(bodies[i]))
  {
    if bodies != [] {
      ContribMembers(f, bodies[1..], v);
      if v in Contrib(f, bodies[1..]) {
        var i :| 0 <= i < |bodies[1..]| && v in SeqFirst(f, SplitWs(bodies[1..][i]));
        assert bodies[i + 1] == bodies[1..][i];
      }
      if exists i :: 0 <= i < |bodies| && v in SeqFirst(f, SplitWs(bodies[i])) {
        var i :| 0 <= i < |bodies| && v in SeqFirst(f, SplitWs(bodies[i]));
        if i > 0 {
          assert bodies[1..][i - 1] == bodies[i];
        }
      }
    }
  }

  lemma ContribWithin(f: FirstMap, bodies: seq<string>, u: set<string>)
    requires ValuesWithin(f, u) && "" in u
    requires BodiesSymbols(bodies) <= f.Keys
    ensures Contrib(f, bodies) <= u
  {
    forall v | v in Contrib(f, bodies) ensures v in u {
      ContribMembers(f, bodies, v);
      var i :| 0 <= i < |bodies| && v in SeqFirst(f, SplitWs(bodies[i]));
      var syms := SplitWs(bodies[i]);
      forall k | 0 <= k < |syms| ensures syms[k] in f {
        assert bodies[i] in bodies && syms[k] in SplitWs(bodies[i]);
        assert syms[k] in BodiesSymbols(bodies);
      }
      SeqFirstWithin(f, syms, u);
    }
  }

  /** A step never leaves a closed assignment that is above its argument. */
  lemma StepBelowClosed(prods: Productions, f: FirstMap, c: FirstMap)
    requires Below(f, c) && Closed(prods, c)
    ensures Below(Step(prods, f), c)
  {
    forall s | s in f && s in prods ensures Contrib(f, prods[s]) <= c[s] {
      ContribMono(f, c, prods[s]);
      forall v | v in Contrib(c, prods[s]) ensures v in c[s] {
        ContribMembers(c, prods[s], v);
      }
    }
  }

  /** An assignment that a step leaves unchanged is closed. */
  lemma StepFixedClosed(prods: Productions, f: FirstMap)
    requires prods.Keys <= f.Keys && Step(prods, f) == f
    ensures Closed(prods, f)
  {
    forall nt, i | nt in prods && 0 <= i < |prods[nt]|
      ensures SeqFirst(f, SplitWs(prods[nt][i])) <= f[nt]
    {
      forall v | v in SeqFirst(f, SplitWs(prods[nt][i])) ensures v in f[nt] {
        ContribMembers(f, prods[nt], v);
        assert Step(prods, f)[nt] == f[nt] + Contrib(f, prods[nt]);
      }
    }
  }

  // ---------------------------------------------------------------------
  // Termination measure: the (symbol, value) pairs still missing

  function Missing(f: FirstMap, u: set<string>): set<(string, string)> {
    set s, v | s in f && v in u && v !in f[s] :: (s, v)
  }

  /** Growing an assignment inside the universe `u` strictly shrinks the
      set of missing pairs. */
  lemma MissingShrinks(f: FirstMap, g: FirstMap, u: set<string>, s: string, v: string)
    requires Below(f, g) && ValuesWithin(g, u)
    requires s in f && v in g[s] && v !in f[s]
    ensures Missing(g, u) < Missing(f, u)
  {
    assert (s, v) in Missing(f, u) - Missing(g, u);
  }

  // ---------------------------------------------------------------------
  // The least closed assignment

  predicate Covers(prods: Productions, f: FirstMap) {
    prods.Keys <= f.Keys && BodySymbols(prods) <= f.Keys
  }

  lemma BodiesCovered(prods: Productions, f: FirstMap, nt: string)
    requires Covers(prods, f) && nt in prods
    ensures BodiesSymbols(prods[nt]) <= f.Keys
  {
    forall s | s in BodiesSymbols(prods[nt]) ensures s in f {
      assert s in BodySymbols(prods);
    }
  }

  /** Repeats `Step` until nothing changes. */
  ghost function Iterate(prods: Productions, f: FirstMap, u: set<string>): (r: FirstMap)
    requires Covers(prods, f) && ValuesWithin(f, u) && "" in u
    ensures Below(f, r) && Closed(prods, r) && ValuesWithin(r, u)
    ensures forall s :: s in f && s !in prods ==> r[s] == f[s]
    decreases Missing(f, u)
  {
    var g := Step(prods, f);
    if g == f then
      StepFixedClosed(prods, f);
      f
    else
      assert ValuesWithin(g, u) by {
        forall s | s in g && s in prods ensures g[s] <= u {
          BodiesCovered(prods, f, s);
          ContribWithin(f, prods[s], u);
        }
      }
      var s :| s in f && g[s] != f[s];
      var v :| v in g[s] && v !in f[s];
      MissingShrinks(f, g, u, s, v);
      Iterate(prods, g, u)
  }

  lemma {:induction false} IterateLeast(prods: Productions, f: FirstMap, u: set<string>, c: FirstMap)
    requires Covers(prods, f) && ValuesWithin(f, u) && "" in u
    requires Below(f, c) && Closed(prods, c)
    ensures Below(Iterate(prods, f, u), c)
    decreases Missing(f, u)
  {
    var g := Step(prods, f);
    if g != f {
      StepBelowClosed(prods, f, c);
      assert ValuesWithin(g, u) by {
        forall s | s in g && s in prods ensures g[s] <= u {
          BodiesCovered(prods, f, s);
          ContribWithin(f, prods[s], u);
        }
      }
      var s :| s in f && g[s] != f[s];
      var v :| v in g[s] && v !in f[s];
      MissingShrinks(f, g, u, s, v);
      IterateLeast(prods, g, u, c);
    }
  }

  /** FIRST sets of a grammar: the least closed assignment above `Init`. */
  ghost function FirstSets(prods: Productions, terminals: set<string>, nonTerminals: set<string>): (r: FirstMap)
    requires WellFormed(prods, terminals, nonTerminals)
    ensures r.Keys == nonTerminals + terminals
    ensures Closed(prods, r)
    ensures Below(Init(terminals, nonTerminals), r)
    ensures ValuesWithin(r, terminals + {""})
    ensures forall t :: t in terminals && t !in prods ==> r[t] == {t}
  {
    Iterate(prods, Init(terminals, nonTerminals), terminals + {""})
  }

  /** FIRST sets lie below every closed assignment above `Init`. */
  lemma FirstSetsLeast(prods: Productions, terminals: set<string>, nonTerminals: set<string>, c: FirstMap)
    requires WellFormed(prods, terminals, nonTerminals)
    requires Below(Init(terminals, nonTerminals), c) && Closed(prods, c)
    ensures Below(FirstSets(prods, terminals, nonTerminals), c)
  {
    IterateLeast(prods, Init(terminals, nonTerminals), terminals + {""}, c);
  }

  /** Two assignments each below the other are equal. */
  lemma BelowAntisymmetric(f: FirstMap, g: FirstMap)
    requires Below(f, g) && Below(g, f)
    ensures f == g
  {
    forall s | s in f ensures f[s] == g[s] {
      assert f[s] <= g[s] && g[s] <= f[s];
    }
  }

  /** Taking out of FIRST(nt) a value that no body of nt contributes and
      that `Init` does not hold leaves an assignment that is still closed
      and still above `Init`. */
  lemma DropUnjustified(prods: Productions, terminals: set<string>, nonTerminals: set<string>,
                        nt: string, v: string)
    requires WellFormed(prods, terminals, nonTerminals)
    requires nt in prods
    requires var r := FirstSets(prods, terminals, nonTerminals);
      nt in r && forall i :: 0 <= i < |prods[nt]| ==> v !in SeqFirst(r, SplitWs(prods[nt][i]))
    requires v !in Init(terminals, nonTerminals)[nt]
    ensures var r := FirstSets(prods, terminals, nonTerminals);
      var c := r[nt := r[nt] - {v}];
      Below(c, r) && Below(Init(terminals, nonTerminals), c) && Closed(prods, c)
  {
    var r := FirstSets(prods, terminals, nonTerminals);
    var c := r[nt := r[nt] - {v}];
    var init := Init(terminals, nonTerminals);
    assert Below(c, r);
    forall s | s in c ensures init[s] <= c[s] {
      assert init[s] <= r[s];
    }
    forall n, i | n in prods && 0 <= i < |prods[n]|
      ensures SeqFirst(c, SplitWs(prods[n][i])) <= c[n]
    {
      var body := SplitWs(prods[n][i]);
      SeqFirstMono(c, r, body);
      assert SeqFirst(r, body) <= r[n];
    }
  }

  /** Every value FIRST(nt) gains beyond `Init` is contributed by one of the
      bodies of nt. */
  lemma FirstSetsJustified(prods: Productions, terminals: set<string>, nonTerminals: set<string>,
                           nt: string, v: string)
    requires WellFormed(prods, terminals, nonTerminals)
    requires nt in prods
    requires v in FirstSets(prods, terminals, nonTerminals)[nt]
    requires v !in Init(terminals, nonTerminals)[nt]
    ensures exists i :: (0 <= i < |prods[nt]| &&
      v in SeqFirst(FirstSets(prods, terminals, nonTerminals), SplitWs(prods[nt][i])))
  {
    var r := FirstSets(prods, terminals, nonTerminals);
    if forall i :: 0 <= i < |prods[nt]| ==> v !in SeqFirst(r, SplitWs(prods[nt][i])) {
      DropUnjustified(prods, terminals, nonTerminals, nt, v);
      FirstSetsLeast(prods, terminals, nonTerminals, r[nt := r[nt] - {v}]);
      assert false;
    }
  }

  /** A non-terminal is nullable exactly when one of its bodies consists of
      nullable symbols only (in particular when a body has no symbol). */
  lemma NullableIff(prods: Productions, terminals: set<string>, nonTerminals: set<string>, nt: string)
    requires WellFormed(prods, terminals, nonTerminals)
    requires nt in prods
    ensures "" in FirstSets(prods, terminals, nonTerminals)[nt] <==>
      exists i :: (0 <= i < |prods[nt]| &&
        AllNullable(FirstSets(prods, terminals, nonTerminals), SplitWs(prods[nt][i])))
  {
    var r := FirstSets(prods, terminals, nonTerminals);
    if "" in r[nt] {
      FirstSetsJustified(prods, terminals, nonTerminals, nt, "");
      var i :| 0 <= i < |prods[nt]| && "" in SeqFirst(r, SplitWs(prods[nt][i]));
      SeqFirstMembers(r, SplitWs(prods[nt][i]), "");
    }
    if exists i :: 0 <= i < |prods[nt]| && AllNullable(r, SplitWs(prods[nt][i])) {
      var i :| 0 <= i < |prods[nt]| && AllNullable(r, SplitWs(prods[nt][i]));
      SeqFirstMembers(r, SplitWs(prods[nt][i]), "");
    }
  }
}
