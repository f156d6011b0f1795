/**
 * The grammar object of the backend: productions, start symbol, and the
 * terminal and non-terminal sets derived from them when it is built.
 */
module GrammarModel {
  import opened Text
  import opened FirstSpec

  /** The symbols occurring in the bodies of the productions of `keys`. */
  function SymbolsOfKeys(prods: Productions, keys: set<string>): set<string> {
    set nt, s | nt in keys && nt in prods && s in BodiesSymbols(prods[nt]) :: s
  }

  lemma BodiesSymbolsSnoc(bodies: seq<string>, j: nat)
    requires j < |bodies|
    ensures BodiesSymbols(bodies[..j + 1]) == BodiesSymbols(bodies[..j]) + (set s | s in SplitWs(bodies[j]))
  {
    assert bodies[..j + 1] == bodies[..j] + [bodies[j]];
  }

  lemma SymbolsOfKeysAdd(prods: Productions, keys: set<string>, nt: string)
    requires nt in prods
    ensures SymbolsOfKeys(prods, keys + {nt}) == SymbolsOfKeys(prods, keys) + BodiesSymbols(prods[nt])
  {
  }

  lemma SymbolsOfAllKeys(prods: Productions)
    ensures SymbolsOfKeys(prods, prods.Keys) == BodySymbols(prods)
  {
  }

  /** A symbol of a body is a body symbol of the grammar. */
  lemma InBodySymbols(prods: Productions, nt: string, j: nat, s: string)
    requires nt in prods && j < |prods[nt]| && s in SplitWs(prods[nt][j])
    ensures s in BodySymbols(prods)
  {
    assert prods[nt][j] in prods[nt];
    assert s in BodiesSymbols(prods[nt]);
  }

  /** Terminals and non-terminals are disjoint, and together they hold
      every key and every body symbol. */
  lemma SymbolPartition(prods: Productions)
    ensures TerminalsOf(prods) !! prods.Keys
    ensures BodySymbols(prods) <= TerminalsOf(prods) + prods.Keys
  {
  }

  /** FIRST of the non-empty body `symbols`: the inner loop of the FIRST
      computation, which stops after the first non-nullable symbol. */
  method BodyFirst(first: FirstMap, symbols: seq<string>) returns (curr: set<string>)
    requires |symbols| > 0
    requires forall k :: 0 <= k < |symbols| ==> symbols[k] in first
    ensures curr == SeqFirst(first, symbols)
  {
    curr := {};
    var allNullable := true;
    var k := 0;
    while k < |symbols|
      invariant 0 <= k <= |symbols|
      invariant "" !in curr
      invariant SeqFirst(first, symbols) == curr + SeqFirst(first, symbols[k..])
    {
      var symbolFirst := first[symbols[k]];
      assert symbols[k..][1..] == symbols[k + 1..];
      curr := curr + (symbolFirst - {""});
      if "" !in symbolFirst {
        allNullable := false;
        break;
      }
      k := k + 1;
    }
    if allNullable {
      curr := curr + {""};
    }
  }

  /** The symbol split made when a grammar is built: the non-terminals
      are the production keys, the terminals every body symbol that is not
      a key, collected body by body. */
  method ClassifySymbols(prods: Productions) returns (keys: set<string>, found: set<string>)
    ensures keys == prods.Keys
    ensures found == TerminalsOf(prods)
  {
    keys := prods.Keys;
    found := {};
    var pending := keys;
    while pending != {}
      invariant pending <= keys
      invariant found == SymbolsOfKeys(prods, keys - pending) - keys
    {
      var nt :| nt in pending;
      var bodies := prods[nt];
      ghost var done := keys - pending;
      var j := 0;
      while j < |bodies|
        invariant 0 <= j <= |bodies|
        invariant found == SymbolsOfKeys(prods, done) + BodiesSymbols(bodies[..j]) - keys
      {
        var symbols := SplitWs(bodies[j]);
        var k := 0;
        while k < |symbols|
          invariant 0 <= k <= |symbols|
          invariant found == SymbolsOfKeys(prods, done) + BodiesSymbols(bodies[..j])
                             + (set s | s in symbols[..k]) - keys
        {
          if symbols[k] !in keys {
            found := found + {symbols[k]};
          }
          assert symbols[..k + 1] == symbols[..k] + [symbols[k]];
          k := k + 1;
        }
        assert symbols[..k] == symbols;
        BodiesSymbolsSnoc(bodies, j);
        j := j + 1;
      }
      assert bodies[..j] == bodies;
      SymbolsOfKeysAdd(prods, done, nt);
      assert keys - (pending - {nt}) == done + {nt};
      pending := pending - {nt};
    }
    SymbolsOfAllKeys(prods);
  }

  class Grammar {
    var productions: Productions
    var startSymbol: string
    var terminals: set<string>
    var nonTerminals: set<string>

    /** The non-terminals are the production keys, every body symbol is a
        terminal or a non-terminal, and no terminal is the empty string. */
    ghost predicate Valid()
      reads this
    {
      nonTerminals == productions.Keys
      && WellFormed(productions, terminals, nonTerminals)
    }

    constructor (productions: Productions, startSymbol: string)
      ensures this.productions == productions && this.startSymbol == startSymbol
      ensures nonTerminals == productions.Keys
      ensures terminals == TerminalsOf(productions)
      ensures Valid()
    {
      this.productions := productions;
      this.startSymbol := startSymbol;
      this.terminals := {};
      this.nonTerminals := {};
      new;
      InitializeSymbols();
    }

    /** The non-terminals are the production keys; the terminals are the
        body symbols that are not keys. */
    method InitializeSymbols()
      modifies this
      ensures productions == old(productions) && startSymbol == old(startSymbol)
      ensures nonTerminals == productions.Keys
      ensures terminals == TerminalsOf(productions)
      ensures Valid()
    {
      nonTerminals, terminals := ClassifySymbols(productions);
    }

    /** The grammar is accepted exactly when the start symbol has
        productions (the list and string type checks always pass on typed
        values). */
    method ValidateGrammar() returns (ok: bool)
      ensures ok <==> startSymbol in productions
    {
      if startSymbol !in productions {
        return false;
      }
      return true;
    }

    /** FIRST sets of every symbol, grown in place production by production
        until a full pass changes nothing.  The result is the least closed
        assignment, whatever order the productions are visited in. */
    method GetFirstSets() returns (first: FirstMap)
      requires Valid()
      ensures first == FirstSets(productions, terminals, nonTerminals)
    {
      ghost var lfp := FirstSets(productions, terminals, nonTerminals);
      ghost var u := terminals + {""};
      ghost var init := Init(terminals, nonTerminals);
      first := InitialFirst(terminals, nonTerminals);

      var changed := true;
      while changed
        invariant Below(init, first) && Below(first, lfp)
        invariant !changed ==> Closed(productions, first)
        decreases Missing(first, u), changed
      {
        ghost var start := first;
        first, changed := FirstPass(productions, first, lfp, u);
        BelowTrans(init, start, first);
      }
      FirstSetsLeast(productions, terminals, nonTerminals, first);
      BelowAntisymmetric(first, lfp);
    }
  }

  /** Every symbol starts with an empty FIRST set, then every terminal t
      with {t}. */
  method InitialFirst(terminals: set<string>, nonTerminals: set<string>) returns (first: FirstMap)
    ensures first == Init(terminals, nonTerminals)
  {
    first := map s | s in nonTerminals + terminals :: {};
    var pending := terminals;
    while pending != {}
      invariant pending <= terminals
      invariant first.Keys == nonTerminals + terminals
      invariant forall s :: s in first ==> first[s] == if s in terminals - pending then {s} else {}
    {
      var t :| t in pending;
      first := first[t := {t}];
      pending := pending - {t};
    }
  }

  /** The productions of the keys in `done` add nothing to `first`. */
  ghost predicate ClosedOn(prods: Productions, first: FirstMap, done: set<string>) {
    forall n, i :: n in done && n in prods && 0 <= i < |prods[n]| ==>
      n in first && SeqFirst(first, SplitWs(prods[n][i])) <= first[n]
  }

  /** One pass of the FIRST loop over every production key, in the
      dictionary's order (any order here). */
  method FirstPass(prods: Productions, first: FirstMap, ghost lfp: FirstMap, ghost u: set<string>)
    returns (next: FirstMap, changed: bool)
    requires Covers(prods, first)
    requires Below(first, lfp) && Closed(prods, lfp) && ValuesWithin(lfp, u)
    ensures Below(first, next) && Below(next, lfp)
    ensures changed ==> Missing(next, u) < Missing(first, u)
    ensures !changed ==> next == first && Closed(prods, first)
  {
    next := first;
    changed := false;
    var pending := prods.Keys;
    while pending != {}
      invariant pending <= prods.Keys
      invariant Below(first, next) && Below(next, lfp)
      invariant changed ==> Missing(next, u) < Missing(first, u)
      invariant !changed ==> next == first && ClosedOn(prods, first, prods.Keys - pending)
    {
      var nt :| nt in pending;
      var changedHere;
      ghost var before := next;
      next, changedHere := UpdateFirst(prods, nt, next, lfp, u);
      BelowTrans(first, before, next);
      if changedHere {
        MissingMono(first, before, u);
        changed := true;
      }
      assert prods.Keys - (pending - {nt}) == (prods.Keys - pending) + {nt};
      pending := pending - {nt};
    }
  }

  lemma BelowTrans(f: FirstMap, g: FirstMap, h: FirstMap)
    requires Below(f, g) && Below(g, h)
    ensures Below(f, h)
  {
  }

  /** One visit of the productions of `nt` in a pass of the FIRST loop:
      every body whose FIRST is not yet inside FIRST(nt) is added to it. */
  method UpdateFirst(prods: Productions, nt: string, first: FirstMap, ghost lfp: FirstMap, ghost u: set<string>)
    returns (next: FirstMap, changed: bool)
    requires nt in prods && Covers(prods, first)
    requires Below(first, lfp) && Closed(prods, lfp) && ValuesWithin(lfp, u)
    ensures Below(first, next) && Below(next, lfp)
    ensures changed ==> Missing(next, u) < Missing(first, u)
    ensures !changed ==> next == first
    ensures forall n :: n in first && n != nt ==> next[n] == first[n]
    ensures !changed ==> forall i :: 0 <= i < |prods[nt]| ==> SeqFirst(first, SplitWs(prods[nt][i])) <= first[nt]
  {
    next := first;
    changed := false;
    var bodies := prods[nt];
    var j := 0;
    while j < |bodies|
      invariant 0 <= j <= |bodies|
      invariant Below(first, next) && Below(next, lfp)
      invariant changed ==> Missing(next, u) < Missing(first, u)
      invariant !changed ==> next == first
      invariant forall n :: n in first && n != nt ==> next[n] == first[n]
      invariant !changed ==> forall i :: 0 <= i < j ==> SeqFirst(first, SplitWs(bodies[i])) <= first[nt]
    {
      var symbols := SplitWs(bodies[j]);
      var curr: set<string>;
      if symbols == [] {
        curr := {""};
      } else {
        forall k | 0 <= k < |symbols| ensures symbols[k] in next {
          InBodySymbols(prods, nt, j, symbols[k]);
        }
        curr := BodyFirst(next, symbols);
      }
      if !(curr <= next[nt]) {
        SeqFirstMono(next, lfp, symbols);
        GrowFirst(first, next, lfp, u, nt, curr);
        next := next[nt := next[nt] + curr];
        changed := true;
      }
      j := j + 1;
    }
  }

  /** Adding to FIRST(nt) values that the least fixed point holds, at
      least one of them new, keeps the assignment below the fixed point and
      strictly shrinks what is missing. */
  lemma GrowFirst(first: FirstMap, before: FirstMap, lfp: FirstMap, u: set<string>, nt: string, curr: set<string>)
    requires Below(first, before) && Below(before, lfp) && ValuesWithin(lfp, u)
    requires nt in before && curr <= lfp[nt] && !(curr <= before[nt])
    ensures var next := before[nt := before[nt] + curr];
      Below(first, next) && Below(next, lfp) && Missing(next, u) < Missing(first, u)
  {
    var next := before[nt := before[nt] + curr];
    var v :| v in curr && v !in before[nt];
    MissingShrinks(before, next, u, nt, v);
    MissingMono(first, before, u);
  }

  lemma MissingMono(f: FirstMap, g: FirstMap, u: set<string>)
    requires Below(f, g)
    ensures Missing(g, u) <= Missing(f, u)
  {
  }
}
