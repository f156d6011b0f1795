/**
 * The LR(1) parser object: closure and GOTO over LR(1) items, the
 * collection of item sets, the ACTION/GOTO tables and the driver that
 * runs the stack machine over the tokens of an input.
 */
module Lr1 {
  import opened Wrappers
  import opened Text
  import opened FirstSpec
  import opened GrammarModel
  import opened Items
  import opened ParseMachine
  import opened Tokenizer

  // ---------------------------------------------------------------------
  // Steps of the closure computation

  /** The lookaheads of the items closure adds for `it`: the non-empty
      members of FIRST of each symbol after the next one, then of the
      item's lookahead, up to the first that is not nullable; the item's
      lookahead itself when all of them are nullable. */
  method ComputeLookaheads(first: FirstMap, it: Item) returns (looks: set<string>)
    requires !AtEnd(it)
    ensures looks == Lookaheads(first, it)
  {
    var symbols := SplitWs(it.body);
    var remaining := symbols[it.dot + 1..] + [it.lookahead];
    looks := {};
    var allNullable := true;
    var k := 0;
    while k < |remaining|
      invariant 0 <= k <= |remaining|
      invariant "" !in looks && allNullable
      invariant SeqFirst(first, remaining) == looks + SeqFirst(first, remaining[k..])
    {
      var symbolFirst := FirstGet(first, remaining[k]);
      assert remaining[k..][1..] == remaining[k + 1..];
      looks := looks + (symbolFirst - {""});
      if "" !in symbolFirst {
        allNullable := false;
        break;
      }
      k := k + 1;
    }
    if allNullable {
      looks := looks + {it.lookahead};
    }
  }

  lemma DerivedSnoc(b: string, bodies: seq<string>, j: nat, looks: set<string>)
    requires j < |bodies|
    ensures Derived(b, bodies[..j + 1], looks)
         == Derived(b, bodies[..j], looks) + (set l | l in looks :: Item(b, bodies[j], 0, l))
  {
    assert bodies[..j + 1] == bodies[..j] + [bodies[j]];
  }

  /** Adds to `found` the items closure derives from `it` that `closure`
      does not hold yet (the body of the loop over the closure). */
  method AddDerived(prods: Productions, first: FirstMap, closure: set<Item>, it: Item, found: set<Item>)
    returns (result: set<Item>)
    ensures result == found + (ItemGenerated(prods, first, it) - closure)
  {
    result := found;
    var symbols := SplitWs(it.body);
    if it.dot >= |symbols| {
      return;
    }
    var nextSymbol := symbols[it.dot];
    if nextSymbol !in prods {
      return;
    }
    var looks := ComputeLookaheads(first, it);
    var bodies := prods[nextSymbol];
    var j := 0;
    while j < |bodies|
      invariant 0 <= j <= |bodies|
      invariant result == found + (Derived(nextSymbol, bodies[..j], looks) - closure)
    {
      ghost var atJ := result;
      var pending := looks;
      while pending != {}
        invariant pending <= looks
        invariant result == atJ + ((set l | l in looks - pending :: Item(nextSymbol, bodies[j], 0, l)) - closure)
      {
        var look :| look in pending;
        var newItem := Item(nextSymbol, bodies[j], 0, look);
        if newItem !in closure {
          result := result + {newItem};
        }
        assert looks - (pending - {look}) == (looks - pending) + {look};
        pending := pending - {look};
      }
      assert looks - pending == looks;
      DerivedSnoc(nextSymbol, bodies, j, looks);
      j := j + 1;
    }
    assert bodies[..j] == bodies;
  }

  lemma GeneratedAdd(prods: Productions, first: FirstMap, c: set<Item>, it: Item)
    ensures Generated(prods, first, c + {it}) == Generated(prods, first, c) + ItemGenerated(prods, first, it)
  {
  }

  /** The items one round of closure adds: everything derived from the
      items of `closure` that it does not hold yet. */
  method NewItems(prods: Productions, first: FirstMap, closure: set<Item>) returns (newItems: set<Item>)
    ensures newItems == Generated(prods, first, closure) - closure
  {
    newItems := {};
    var pending := closure;
    while pending != {}
      invariant pending <= closure
      invariant newItems == Generated(prods, first, closure - pending) - closure
    {
      var it :| it in pending;
      newItems := AddDerived(prods, first, closure, it, newItems);
      GeneratedAdd(prods, first, closure - pending, it);
      assert closure - (pending - {it}) == (closure - pending) + {it};
      pending := pending - {it};
    }
    assert closure - pending == closure;
  }

  /** Adding S' -> S to a grammar keeps it well formed when every symbol
      of S is already a terminal or a non-terminal. */
  lemma AugmentWellFormed(prods: Productions, terminals: set<string>, nonTerminals: set<string>,
                          augmented: string, start: string)
    requires nonTerminals == prods.Keys && WellFormed(prods, terminals, nonTerminals)
    requires forall w :: w in SplitWs(start) ==> w in nonTerminals || w in terminals
    ensures WellFormed(prods[augmented := [start]], terminals, nonTerminals + {augmented})
  {
    var p := prods[augmented := [start]];
    forall s | s in BodySymbols(p) ensures s in nonTerminals + {augmented} + terminals {
      var nt :| nt in p && s in BodiesSymbols(p[nt]);
      if nt != augmented {
        assert s in BodySymbols(prods);
      }
    }
  }

  /** Every key the table construction writes in state `key.0` comes from a
      completed item of that state with `key.1` as its lookahead. */
  ghost predicate Justified(sets: seq<set<Item>>, augmented: string, key: (int, string), action: Action) {
    0 <= key.0 < |sets|
    && exists it :: it in sets[key.0] && Completed(it) && it.lookahead == key.1
                    && action == CompletedEntry(it, augmented)
  }

  /** With the collection [{}, I], every justified entry is in state 1. */
  lemma JustifiedAtOne(sets: seq<set<Item>>, augmented: string, key: (int, string), action: Action)
    requires |sets| == 2 && sets[0] == {}
    requires Justified(sets, augmented, key, action)
    ensures key.0 == 1
  {
  }

  /** The dot is exactly at the end of the body. */
  predicate Completed(it: Item) {
    it.dot == |SplitWs(it.body)|
  }

  /** The entry of a completed item: accept for S' -> S with lookahead $,
      a reduce by its production otherwise. */
  function CompletedEntry(it: Item, augmented: string): Action {
    if it.lhs == augmented && it.lookahead == "$" then Accept else Reduce(it.lhs, it.body)
  }

  /** The position of `x` in `s` (the first one), -1 when absent. */
  function IndexOf(s: seq<set<Item>>, x: set<Item>): (r: int)
    ensures x in s ==> 0 <= r < |s| && s[r] == x && x !in s[..r]
    ensures x !in s ==> r == -1
  {
    if s == [] then -1
    else if s[0] == x then 0
    else
      var r := IndexOf(s[1..], x);
      assert s[1..] == s[..|s|][1..];
      if r < 0 then -1 else
        assert s[..r + 1] == [s[0]] + s[1..][..r];
        r + 1
  }

  function AugmentedSymbol(start: string): string {
    start + "'"
  }

  /** S' -> .S with lookahead $: the item the collection starts from. */
  function StartItem(start: string): Item {
    Item(AugmentedSymbol(start), start, 0, "$")
  }

  class LR1Parser {
    const grammar: Grammar
    var lr1Items: seq<set<Item>>
    var parsingTable: ActionTable
    var gotoTable: GotoTable

    /** The grammar is well formed, and the tables are what table
        construction leaves: ACTION entries only in state 1 and no GOTO
        entry at all. */
    ghost predicate Valid()
      reads this, grammar
    {
      grammar.Valid()
      && (forall key :: key in parsingTable ==> key.0 == 1)
      && gotoTable == map[]
    }

    /** FIRST sets of the grammar as it currently stands. */
    ghost function First(): FirstMap
      reads grammar
      requires grammar.Valid()
    {
      FirstSets(grammar.productions, grammar.terminals, grammar.nonTerminals)
    }

    /** Building the collection needs every symbol of the start symbol to
        be known to the FIRST computation. */
    ghost predicate StartKnown()
      reads grammar
    {
      forall w :: w in SplitWs(grammar.startSymbol) ==> w in grammar.nonTerminals || w in grammar.terminals
    }

    constructor (grammar: Grammar)
      requires grammar.Valid()
      ensures this.grammar == grammar
      ensures lr1Items == [] && parsingTable == map[] && gotoTable == map[]
      ensures Valid()
    {
      this.grammar := grammar;
      lr1Items := [];
      parsingTable := map[];
      gotoTable := map[];
    }

    /** Closure of a set of items: it is grown by everything its items
        derive until a round adds nothing, and the result is the least set
        containing `items` that derives nothing new. */
    method ComputeClosure(items: set<Item>) returns (closure: set<Item>)
      requires grammar.Valid()
      ensures IsClosure(grammar.productions, First(), items, closure)
    {
      closure := items;
      var changed := true;
      var first := grammar.GetFirstSets();
      var prods := grammar.productions;
      ghost var universe := ClosureUniverse(prods, first, items);
      while changed
        invariant items <= closure <= universe
        invariant forall c :: ClosedOver(prods, first, items, c) ==> closure <= c
        invariant !changed ==> Generated(prods, first, closure) <= closure
        decreases universe - closure, changed
      {
        var newItems := NewItems(prods, first, closure);
        GeneratedWithin(prods, first, items, closure);
        forall c | ClosedOver(prods, first, items, c) ensures closure + newItems <= c {
          GeneratedMono(prods, first, closure, c);
        }
        changed := newItems != {};
        closure := closure + newItems;
      }
    }

    /** GOTO(I, X): the items of I whose next symbol is X, with the dot
        moved over it, then closed. */
    method ComputeGoto(items: set<Item>, symbol: string) returns (gotoSet: set<Item>)
      requires grammar.Valid()
      ensures IsClosure(grammar.productions, First(), Kernel(items, symbol), gotoSet)
    {
      var gotoItems := {};
      var pending := items;
      while pending != {}
        invariant pending <= items
        invariant gotoItems == Kernel(items - pending, symbol)
      {
        var it :| it in pending;
        var symbols := SplitWs(it.body);
        if it.dot < |symbols| && symbols[it.dot] == symbol {
          gotoItems := gotoItems + {it.(dot := it.dot + 1)};
        }
        assert items - (pending - {it}) == (items - pending) + {it};
        pending := pending - {it};
      }
      assert items - pending == items;
      gotoSet := ComputeClosure(gotoItems);
    }

    /** Adds S' -> S to the grammar and builds the collection of item sets.
        The collection starts as [{}, closure({S' -> .S, $})] with state 1
        already marked processed, so the only state processed is the empty
        one, every GOTO of it is empty, and the loop stops after one pass
        with those two sets and no transition recorded. */
    method BuildLr1Sets()
      requires grammar.Valid() && StartKnown()
      modifies this, grammar
      ensures grammar.startSymbol == old(grammar.startSymbol) && grammar.terminals == old(grammar.terminals)
      ensures grammar.productions == old(grammar.productions)[AugmentedSymbol(grammar.startSymbol) := [grammar.startSymbol]]
      ensures grammar.nonTerminals == old(grammar.nonTerminals) + {AugmentedSymbol(grammar.startSymbol)}
      ensures grammar.Valid() && StartKnown()
      ensures |lr1Items| == 2 && lr1Items[0] == {}
      ensures IsClosure(grammar.productions, First(), {StartItem(grammar.startSymbol)}, lr1Items[1])
      ensures parsingTable == old(parsingTable) && gotoTable == old(gotoTable)
    {
      AugmentGrammar();
      var startItem := Item(grammar.startSymbol + "'", grammar.startSymbol, 0, "$");
      var initialSet := ComputeClosure({startItem});
      var sets, table, gotos := CollectStates(initialSet);
      lr1Items, parsingTable, gotoTable := sets, table, gotos;
    }

    /** The augmentation step: the production S' -> S is added to the
        productions and S' to the non-terminals. */
    method AugmentGrammar()
      requires grammar.Valid() && StartKnown()
      modifies grammar
      ensures grammar.startSymbol == old(grammar.startSymbol) && grammar.terminals == old(grammar.terminals)
      ensures grammar.productions == old(grammar.productions)[AugmentedSymbol(grammar.startSymbol) := [grammar.startSymbol]]
      ensures grammar.nonTerminals == old(grammar.nonTerminals) + {AugmentedSymbol(grammar.startSymbol)}
      ensures grammar.Valid() && StartKnown()
    {
      var augmentedStartSymbol := grammar.startSymbol + "'";
      var augmentedStartProduction := grammar.startSymbol;
      AugmentWellFormed(grammar.productions, grammar.terminals, grammar.nonTerminals,
                        augmentedStartSymbol, augmentedStartProduction);
      grammar.productions := grammar.productions[augmentedStartSymbol := [augmentedStartProduction]];
      grammar.nonTerminals := grammar.nonTerminals + {augmentedStartSymbol};
    }

    /** The collection loop of the item-set construction, from the
        collection [{}, initialSet] with state 1 marked processed: passes
        are made until one queues no new state.  Only the empty state 0 is
        ever processed, so a single pass ends it, with the collection and
        the tables as they were. */
    method CollectStates(initialSet: set<Item>) returns (sets: seq<set<Item>>, table: ActionTable, gotos: GotoTable)
      requires grammar.Valid()
      ensures sets == [{}, initialSet] && table == parsingTable && gotos == gotoTable
    {
      sets := [{}, initialSet];
      var processed: set<int> := {1};
      table, gotos := parsingTable, gotoTable;
      var passing := true;
      while passing
        invariant sets == [{}, initialSet]
        invariant table == parsingTable && gotos == gotoTable
        invariant 1 in processed && processed <= {0, 1}
        decreases passing
      {
        var newSets;
        newSets, processed, table, gotos := ProcessStates(sets, processed, table, gotos);
        assert forall j :: j in processed ==> j == 0 || j == 1;
        if newSets == [] {
          passing := false;
        } else {
          sets := sets + newSets;
        }
      }
    }

    /** One pass of the collection loop: every state not processed yet is
        marked processed, and for every grammar symbol a non-empty GOTO of
        it is queued as a new state unless the collection already holds it,
        and recorded as a shift (lower-case symbol or $) or a GOTO entry.
        States whose item set is empty contribute nothing. */
    method ProcessStates(sets: seq<set<Item>>, processed: set<int>, table: ActionTable, gotos: GotoTable)
      returns (newSets: seq<set<Item>>, processedAfter: set<int>, tableAfter: ActionTable, gotosAfter: GotoTable)
      requires grammar.Valid()
      ensures forall j :: j in processedAfter <==> j in processed || 0 <= j < |sets|
      ensures (forall i :: 0 <= i < |sets| && i !in processed ==> sets[i] == {}) ==>
        newSets == [] && tableAfter == table && gotosAfter == gotos
    {
      ghost var idle := forall i :: 0 <= i < |sets| && i !in processed ==> sets[i] == {};
      newSets, processedAfter, tableAfter, gotosAfter := [], processed, table, gotos;
      var i := 0;
      while i < |sets|
        invariant 0 <= i <= |sets|
        invariant forall j :: j in processedAfter <==> j in processed || 0 <= j < i
        invariant idle ==> newSets == [] && tableAfter == table && gotosAfter == gotos
      {
        if i !in processedAfter {
          processedAfter := processedAfter + {i};
          var symbols := grammar.terminals + grammar.nonTerminals;
          while symbols != {}
            invariant idle ==> newSets == [] && tableAfter == table && gotosAfter == gotos
          {
            var symbol :| symbol in symbols;
            symbols := symbols - {symbol};
            var gotoSet := ComputeGoto(sets[i], symbol);
            if idle {
              KernelEmpty(grammar.productions, First(), sets[i], symbol, gotoSet);
            }
            if gotoSet != {} {
              if gotoSet !in sets {
                newSets := newSets + [gotoSet];
                var nextState := |sets| + |newSets| - 1;
                if IsLowerPy(symbol) || symbol == "$" {
                  tableAfter := tableAfter[(i, symbol) := Shift(nextState)];
                } else {
                  gotosAfter := gotosAfter[(i, symbol) := nextState];
                }
              } else {
                var nextState := IndexOf(sets, gotoSet);
                if IsLowerPy(symbol) || symbol == "$" {
                  tableAfter := tableAfter[(i, symbol) := Shift(nextState)];
                } else {
                  gotosAfter := gotosAfter[(i, symbol) := nextState];
                }
              }
            }
          }
        }
        i := i + 1;
      }
    }

    /** Builds the collection, then writes an entry for every completed item
        of every state: accept under $ for S' -> S., a reduce by the item's
        production under its lookahead otherwise.  When several completed
        items of a state share a lookahead, which one is written last is
        left open. */
    method BuildParsingTable()
      requires grammar.Valid() && StartKnown()
      modifies this, grammar
      ensures grammar.startSymbol == old(grammar.startSymbol) && grammar.terminals == old(grammar.terminals)
      ensures grammar.productions == old(grammar.productions)[AugmentedSymbol(grammar.startSymbol) := [grammar.startSymbol]]
      ensures grammar.nonTerminals == old(grammar.nonTerminals) + {AugmentedSymbol(grammar.startSymbol)}
      ensures grammar.Valid() && StartKnown()
      ensures |lr1Items| == 2 && lr1Items[0] == {}
      ensures IsClosure(grammar.productions, First(), {StartItem(grammar.startSymbol)}, lr1Items[1])
      ensures gotoTable == old(gotoTable)
      ensures forall key :: key in old(parsingTable) ==> key in parsingTable
      ensures forall i, it :: 0 <= i < |lr1Items| && it in lr1Items[i] && Completed(it) ==>
        (i, it.lookahead) in parsingTable
      ensures forall key :: key in parsingTable ==>
        (key in old(parsingTable) && parsingTable[key] == old(parsingTable)[key])
        || Justified(lr1Items, AugmentedSymbol(grammar.startSymbol), key, parsingTable[key])
      ensures forall key :: key in parsingTable ==>
        (key in old(parsingTable) && parsingTable[key] == old(parsingTable)[key]) || key.0 == 1
    {
      BuildLr1Sets();
      AddReduceActions(grammar.startSymbol + "'");
      forall key | key in parsingTable && !(key in old(parsingTable) && parsingTable[key] == old(parsingTable)[key])
        ensures key.0 == 1
      {
        JustifiedAtOne(lr1Items, AugmentedSymbol(grammar.startSymbol), key, parsingTable[key]);
      }
    }

    /** The loop of the table construction: the entries of the completed
        items of every state, state by state. */
    method AddReduceActions(augmented: string)
      modifies this
      ensures lr1Items == old(lr1Items) && gotoTable == old(gotoTable)
      ensures forall key :: key in old(parsingTable) ==> key in parsingTable
      ensures forall i, it :: 0 <= i < |lr1Items| && it in lr1Items[i] && Completed(it) ==>
        (i, it.lookahead) in parsingTable
      ensures forall key :: key in parsingTable ==>
        (key in old(parsingTable) && parsingTable[key] == old(parsingTable)[key])
        || Justified(lr1Items, augmented, key, parsingTable[key])
    {
      ghost var table := parsingTable;
      ghost var gotos := gotoTable;
      ghost var sets := lr1Items;
      var i := 0;
      while i < |lr1Items|
        modifies this
        invariant lr1Items == sets && gotoTable == gotos && 0 <= i <= |sets|
        invariant forall key :: key in table ==> key in parsingTable
        invariant forall j, it :: 0 <= j < i && it in sets[j] && Completed(it) ==> (j, it.lookahead) in parsingTable
        invariant forall key :: key in parsingTable ==>
          (key in table && parsingTable[key] == table[key]) || Justified(sets, augmented, key, parsingTable[key])
      {
        ghost var before := parsingTable;
        AddReduceEntries(i, augmented);
        forall j, it | 0 <= j <= i && it in sets[j] && Completed(it) ensures (j, it.lookahead) in parsingTable {
          if j < i {
            assert (j, it.lookahead) in before;
          }
        }
        i := i + 1;
      }
    }

    /** Writes the entry of every completed item of state i: accept for
        the augmented start item with lookahead $, reduce otherwise. */
    method AddReduceEntries(i: nat, augmented: string)
      requires i < |lr1Items|
      modifies this
      ensures lr1Items == old(lr1Items) && gotoTable == old(gotoTable)
      ensures forall key :: key in old(parsingTable) ==> key in parsingTable
      ensures forall it :: it in lr1Items[i] && Completed(it) ==> (i, it.lookahead) in parsingTable
      ensures forall key :: key in parsingTable ==>
        (key in old(parsingTable) && parsingTable[key] == old(parsingTable)[key])
        || Justified(lr1Items, augmented, key, parsingTable[key])
    {
      var pending := lr1Items[i];
      ghost var table := parsingTable;
      while pending != {}
        modifies this
        invariant lr1Items == old(lr1Items) && gotoTable == old(gotoTable)
        invariant pending <= lr1Items[i]
        invariant forall key :: key in table ==> key in parsingTable
        invariant forall it :: it in lr1Items[i] - pending && Completed(it) ==> (i, it.lookahead) in parsingTable
        invariant forall key :: key in parsingTable ==>
          (key in table && parsingTable[key] == table[key]) || Justified(lr1Items, augmented, key, parsingTable[key])
      {
        var item :| item in pending;
        var symbols := SplitWs(item.body);
        if item.dot == |symbols| {
          if item.lhs == augmented && item.lookahead == "$" {
            parsingTable := parsingTable[(i, "$") := Accept];
          } else {
            parsingTable := parsingTable[(i, item.lookahead) := Reduce(item.lhs, item.body)];
          }
          assert Justified(lr1Items, augmented, (i, item.lookahead), CompletedEntry(item, augmented));
        }
        pending := pending - {item};
      }
    }

    /** Builds the tables when the ACTION table is empty, then runs the
        driver on the tokens of `input` followed by $.  Since the tables
        hold no entry for state 0, where the driver starts, every parse
        stops at once with a missing ACTION entry for the first symbol. */
    method ParseString(input: string, fuel: nat) returns (result: Result<seq<ParsingStep>, ParseError>)
      requires Valid()
      requires parsingTable == map[] ==> StartKnown()
      modifies this, grammar
      ensures Valid()
      ensures old(parsingTable) != map[] ==>
        parsingTable == old(parsingTable) && gotoTable == old(gotoTable) && lr1Items == old(lr1Items)
        && grammar.productions == old(grammar.productions)
      ensures old(parsingTable) == map[] ==>
        |lr1Items| == 2 && lr1Items[0] == {}
        && IsClosure(grammar.productions, First(), {StartItem(grammar.startSymbol)}, lr1Items[1])
      ensures result == Run(parsingTable, gotoTable, Initial(Tokens(input)), fuel)
      ensures fuel > 0 ==> result == Err(NoAction(0, (Tokens(input) + ["$"])[0]))
    {
      if parsingTable == map[] {
        BuildParsingTable();
      }
      var tokens := Tokenize(input);
      var symbols := tokens + ["$"];
      result := Drive(parsingTable, gotoTable, symbols, fuel);
      if fuel > 0 {
        RunFailsWithoutStateZero(parsingTable, gotoTable, tokens, fuel);
      }
    }
  }
}
