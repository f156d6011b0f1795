/**
 * The parsing-table view of the frontend.  The table arrives as an object
 * whose keys are "<state>_<symbol>"; the view decodes the keys into the
 * set of states, the terminal columns and the non-terminal columns
 * (insertion-ordered sets), sorts the states and shows one cell per
 * (state, symbol) pair.
 */
module TableView {
  import opened Wrappers
  import opened Text

  /** A table entry as serialized: the action name and its value text. */
  datatype Entry = Entry(action: string, value: string)

  /** Why decoding a key stops the view: a key with no "_" leaves the
      symbol undefined and `toUpperCase` throws; a state piece that
      `parseInt` cannot read is NaN. */
  datatype KeyError = MissingSymbol(key: string) | NotANumber(key: string)

  /** The decoded columns: states, terminal symbols and non-terminal
      symbols, each without duplicates, in first-seen order. */
  datatype Columns = Columns(states: seq<int>, terminals: seq<string>, nonTerminals: seq<string>)

  // ---------------------------------------------------------------------
  // Keys

  /** The producer's key format: the state in decimal, "_", the symbol. */
  function EncodeKey(state: int, symbol: string): string {
    IntToString(state) + "_" + symbol
  }

  /** A key split on "_": the first piece read by `parseInt` is the state,
      the second piece the symbol, and any further piece is ignored. */
  function DecodeKey(key: string): Result<(int, string), KeyError> {
    var pieces := SplitOn(key, '_');
    if |pieces| < 2 then Err(MissingSymbol(key))
    else
      match ParseInt(pieces[0])
      case None => Err(NotANumber(key))
      case Some(state) => Ok((state, pieces[1]))
  }

  lemma IntToStringNoUnderscore(i: int)
    ensures '_' !in IntToString(i)
  {
    var s := IntToString(i);
    var digits := NatToString(if i < 0 then -i else i);
    assert forall k :: 0 <= k < |digits| ==> digits[k] != '_';
    if i < 0 {
      assert s == "-" + digits;
    }
  }

  /** Decoding reads back the producer's key of every state and every
      symbol free of "_"; whatever follows a second "_" is dropped. */
  lemma DecodeEncodedKey(state: int, symbol: string, rest: string)
    requires '_' !in symbol
    ensures DecodeKey(EncodeKey(state, symbol)) == Ok((state, symbol))
    ensures DecodeKey(EncodeKey(state, symbol) + "_" + rest) == Ok((state, symbol))
  {
    var digits := IntToString(state);
    IntToStringNoUnderscore(state);
    ParseIntOfString(state);
    SplitOnAppend(digits, symbol, '_');
    SplitOnNoSep(symbol, '_');
    assert EncodeKey(state, symbol) == digits + ['_'] + symbol;
    SplitOnAppend(symbol, rest, '_');
    SplitOnAppend(digits, symbol + ['_'] + rest, '_');
    assert EncodeKey(state, symbol) + "_" + rest == digits + ['_'] + (symbol + ['_'] + rest);
  }

  // ---------------------------------------------------------------------
  // Insertion-ordered sets

  /** `Set.prototype.add` on an insertion-ordered set. */
  function AddOrdered<T(==)>(s: seq<T>, x: T): seq<T> {
    if x in s then s else s + [x]
  }

  /** The elements of `s` in order of first occurrence. */
  function Distinct<T(==)>(s: seq<T>): seq<T> {
    if s == [] then [] else AddOrdered(Distinct(s[..|s| - 1]), s[|s| - 1])
  }

  predicate NoDuplicates<T(==)>(s: seq<T>) {
    forall i, j :: 0 <= i < j < |s| ==> s[i] != s[j]
  }

  /** `Distinct` keeps every element once and nothing else. */
  lemma {:induction false} DistinctProperties<T>(s: seq<T>)
    ensures forall x :: x in Distinct(s) <==> x in s
    ensures NoDuplicates(Distinct(s))
  {
    if s != [] {
      DistinctProperties(s[..|s| - 1]);
      assert s == s[..|s| - 1] + [s[|s| - 1]];
    }
  }

  /** `Distinct` keeps the order of first occurrences: an element seen
      first before another comes before it. */
  lemma {:induction false} DistinctOrder<T>(s: seq<T>, i: nat, j: nat)
    requires i < j < |s|
    requires s[i] !in s[..i] && s[j] !in s[..j]
    ensures exists p, q :: 0 <= p < q < |Distinct(s)| && Distinct(s)[p] == s[i] && Distinct(s)[q] == s[j]
  {
    DistinctProperties(s);
    var front := s[..|s| - 1];
    DistinctProperties(front);
    if j < |s| - 1 {
      assert front[..i] == s[..i] && front[..j] == s[..j];
      DistinctOrder(front, i, j);
      var p, q :| 0 <= p < q < |Distinct(front)| && Distinct(front)[p] == s[i] && Distinct(front)[q] == s[j];
      assert Distinct(s)[p] == s[i] && Distinct(s)[q] == s[j];
    } else {
      assert s[j] !in front by {
        assert front == s[..j];
      }
      assert Distinct(s) == Distinct(front) + [s[j]];
      assert s[i] in front;
      assert s[i] in Distinct(front);
      var p :| 0 <= p < |Distinct(front)| && Distinct(front)[p] == s[i];
      var q := |Distinct(front)|;
      assert Distinct(s)[p] == s[i] && Distinct(s)[q] == s[j];
    }
  }

  // ---------------------------------------------------------------------
  // Decoding all keys

  /** The decoded keys in order, or the error of the first key that does
      not decode. */
  function DecodeAll(keys: seq<string>): Result<seq<(int, string)>, KeyError> {
    if keys == [] then Ok([])
    else
      match DecodeAll(keys[..|keys| - 1])
      case Err(e) => Err(e)
      case Ok(parts) =>
        match DecodeKey(keys[|keys| - 1])
        case Err(e) => Err(e)
        case Ok(p) => Ok(parts + [p])
  }

  /** A symbol goes to the non-terminal columns exactly when it equals its
      upper-case form. */
  predicate IsUpperSymbol(symbol: string) {
    ToUpper(symbol) == symbol
  }

  function StatesIn(parts: seq<(int, string)>): seq<int> {
    if parts == [] then [] else StatesIn(parts[..|parts| - 1]) + [parts[|parts| - 1].0]
  }

  function TerminalsIn(parts: seq<(int, string)>): seq<string> {
    if parts == [] then []
    else
      var last := parts[|parts| - 1].1;
      TerminalsIn(parts[..|parts| - 1]) + (if IsUpperSymbol(last) then [] else [last])
  }

  function NonTerminalsIn(parts: seq<(int, string)>): seq<string> {
    if parts == [] then []
    else
      var last := parts[|parts| - 1].1;
      NonTerminalsIn(parts[..|parts| - 1]) + (if IsUpperSymbol(last) then [last] else [])
  }

  /** The columns of a list of decoded keys: the distinct states, the
      distinct symbols that are not upper case followed by "$", and the
      distinct upper-case symbols. */
  function ColumnsOf(parts: seq<(int, string)>): Columns {
    Columns(Distinct(StatesIn(parts)), Distinct(TerminalsIn(parts)) + ["$"], Distinct(NonTerminalsIn(parts)))
  }

  function Decode(keys: seq<string>): Result<Columns, KeyError> {
    match DecodeAll(keys)
    case Err(e) => Err(e)
    case Ok(parts) => Ok(ColumnsOf(parts))
  }

  lemma {:induction false} DecodeAllError(keys: seq<string>, i: nat)
    requires i <= |keys| && DecodeAll(keys[..i]).Err?
    ensures DecodeAll(keys) == DecodeAll(keys[..i])
    decreases |keys| - i
  {
    if i < |keys| {
      assert keys[..i + 1][..i] == keys[..i];
      DecodeAllError(keys, i + 1);
    } else {
      assert keys[..i] == keys;
    }
  }

  lemma TerminalsNoDollar(parts: seq<(int, string)>)
    ensures "$" !in TerminalsIn(parts)
  {
    assert IsUpperSymbol("$");
  }

  /** Decoding one more key extends the decoded list, or stops at its
      error. */
  lemma DecodeAllSnoc(keys: seq<string>, i: nat)
    requires i < |keys| && DecodeAll(keys[..i]).Ok?
    ensures DecodeKey(keys[i]).Err? ==> DecodeAll(keys) == Err(DecodeKey(keys[i]).error)
    ensures DecodeKey(keys[i]).Ok? ==>
      DecodeAll(keys[..i + 1]) == Ok(DecodeAll(keys[..i]).value + [DecodeKey(keys[i]).value])
  {
    assert keys[..i + 1][..i] == keys[..i] && keys[..i + 1][i] == keys[i];
    if DecodeKey(keys[i]).Err? {
      DecodeAllError(keys, i + 1);
    }
  }

  /** The column lists of one more decoded key. */
  lemma ColumnsSnoc(parts: seq<(int, string)>, p: (int, string))
    ensures StatesIn(parts + [p]) == StatesIn(parts) + [p.0]
    ensures TerminalsIn(parts + [p]) == TerminalsIn(parts) + (if IsUpperSymbol(p.1) then [] else [p.1])
    ensures NonTerminalsIn(parts + [p]) == NonTerminalsIn(parts) + (if IsUpperSymbol(p.1) then [p.1] else [])
  {
    assert (parts + [p])[..|parts|] == parts;
  }

  lemma DistinctSnoc<T>(s: seq<T>, x: T)
    ensures Distinct(s + [x]) == AddOrdered(Distinct(s), x)
  {
    assert (s + [x])[..|s|] == s;
  }

  /** The key-decoding loop: every key is split, its state added to the
      states and its symbol to the non-terminal columns when it equals its
      upper-case form, to the terminal columns otherwise; "$" is then added
      to the terminal columns. */
  method DecodeColumns(keys: seq<string>) returns (r: Result<Columns, KeyError>)
    ensures r == Decode(keys)
  {
    var states: seq<int> := [];
    var terminalSymbols: seq<string> := [];
    var nonTerminalSymbols: seq<string> := [];
    ghost var parts: seq<(int, string)> := [];
    var i := 0;
    assert keys[..0] == [];
    while i < |keys|
      invariant 0 <= i <= |keys|
      invariant DecodeAll(keys[..i]) == Ok(parts)
      invariant states == Distinct(StatesIn(parts))
      invariant terminalSymbols == Distinct(TerminalsIn(parts))
      invariant nonTerminalSymbols == Distinct(NonTerminalsIn(parts))
    {
      DecodeAllSnoc(keys, i);
      var decoded := DecodeKey(keys[i]);
      if decoded.Err? {
        return Err(decoded.error);
      }
      var (state, symbol) := decoded.value;
      ghost var next := parts + [(state, symbol)];
      ColumnsSnoc(parts, (state, symbol));
      DistinctSnoc(StatesIn(parts), state);
      states := AddOrdered(states, state);
      if symbol == ToUpper(symbol) {
        assert TerminalsIn(next) == TerminalsIn(parts) + [];
        assert TerminalsIn(parts) + [] == TerminalsIn(parts);
        DistinctSnoc(NonTerminalsIn(parts), symbol);
        nonTerminalSymbols := AddOrdered(nonTerminalSymbols, symbol);
      } else {
        assert NonTerminalsIn(next) == NonTerminalsIn(parts) + [];
        assert NonTerminalsIn(parts) + [] == NonTerminalsIn(parts);
        DistinctSnoc(TerminalsIn(parts), symbol);
        terminalSymbols := AddOrdered(terminalSymbols, symbol);
      }
      parts := next;
      i := i + 1;
    }
    assert keys[..i] == keys;
    TerminalsNoDollar(parts);
    DistinctProperties(TerminalsIn(parts));
    terminalSymbols := AddOrdered(terminalSymbols, "$");
    return Ok(Columns(states, terminalSymbols, nonTerminalSymbols));
  }

  // ---------------------------------------------------------------------
  // Properties of the decoded columns

  function SymbolsIn(parts: seq<(int, string)>): seq<string> {
    if parts == [] then [] else SymbolsIn(parts[..|parts| - 1]) + [parts[|parts| - 1].1]
  }

  lemma {:induction false} ClassifiedSymbols(parts: seq<(int, string)>, symbol: string)
    ensures symbol in NonTerminalsIn(parts) <==> symbol in SymbolsIn(parts) && IsUpperSymbol(symbol)
    ensures symbol in TerminalsIn(parts) <==> symbol in SymbolsIn(parts) && !IsUpperSymbol(symbol)
  {
    if parts != [] {
      ClassifiedSymbols(parts[..|parts| - 1], symbol);
    }
  }

  lemma {:induction false} StatesInMembers(parts: seq<(int, string)>, state: int)
    ensures state in StatesIn(parts) <==> exists k :: 0 <= k < |parts| && parts[k].0 == state
  {
    if parts != [] {
      StatesInMembers(parts[..|parts| - 1], state);
      var front := parts[..|parts| - 1];
      if exists k :: 0 <= k < |front| && front[k].0 == state {
        var k :| 0 <= k < |front| && front[k].0 == state;
        assert parts[k].0 == state;
      }
      if exists k :: 0 <= k < |parts| && parts[k].0 == state {
        var k :| 0 <= k < |parts| && parts[k].0 == state;
        if k < |front| {
          assert front[k].0 == state;
        }
      }
    }
  }

  lemma {:induction false} SymbolsInMembers(parts: seq<(int, string)>, symbol: string)
    ensures symbol in SymbolsIn(parts) <==> exists k :: 0 <= k < |parts| && parts[k].1 == symbol
  {
    if parts != [] {
      SymbolsInMembers(parts[..|parts| - 1], symbol);
      var front := parts[..|parts| - 1];
      if exists k :: 0 <= k < |front| && front[k].1 == symbol {
        var k :| 0 <= k < |front| && front[k].1 == symbol;
        assert parts[k].1 == symbol;
      }
      if exists k :: 0 <= k < |parts| && parts[k].1 == symbol {
        var k :| 0 <= k < |parts| && parts[k].1 == symbol;
        if k < |front| {
          assert front[k].1 == symbol;
        }
      }
    }
  }

  /** Every decoded symbol is in the column lists: in the non-terminal ones
      exactly when it holds no lower-case letter, in the terminal ones
      exactly when it holds one; "$" is always the last terminal column,
      and it is also a non-terminal column exactly when some key mentions
      it.  Every column list is free of duplicates. */
  lemma ColumnsProperties(parts: seq<(int, string)>, symbol: string)
    requires exists k :: 0 <= k < |parts| && parts[k].1 == symbol
    ensures var cols := ColumnsOf(parts);
      (symbol in cols.nonTerminals <==> forall i :: 0 <= i < |symbol| ==> !IsLowerLetter(symbol[i]))
      && (symbol != "$" ==> (symbol in cols.terminals <==> exists i :: 0 <= i < |symbol| && IsLowerLetter(symbol[i])))
      && cols.terminals[|cols.terminals| - 1] == "$"
      && NoDuplicates(cols.states) && NoDuplicates(cols.terminals) && NoDuplicates(cols.nonTerminals)
    ensures var cols := ColumnsOf(parts);
      "$" in cols.nonTerminals <==> exists k :: 0 <= k < |parts| && parts[k].1 == "$"
  {
    var cols := ColumnsOf(parts);
    SymbolsInMembers(parts, symbol);
    SymbolsInMembers(parts, "$");
    ClassifiedSymbols(parts, symbol);
    ClassifiedSymbols(parts, "$");
    ToUpperFixed(symbol);
    assert IsUpperSymbol("$");
    DistinctProperties(StatesIn(parts));
    DistinctProperties(TerminalsIn(parts));
    DistinctProperties(NonTerminalsIn(parts));
    TerminalsNoDollar(parts);
    var ts := Distinct(TerminalsIn(parts));
    assert symbol in cols.terminals <==> symbol in ts || symbol == "$";
    assert NoDuplicates(cols.terminals) by {
      forall i, j | 0 <= i < j < |cols.terminals| ensures cols.terminals[i] != cols.terminals[j] {
        if j == |ts| {
          assert cols.terminals[i] in ts;
        }
      }
    }
  }

  // ---------------------------------------------------------------------
  // Sorting the states

  predicate Ascending(s: seq<int>) {
    forall i, j :: 0 <= i < j < |s| ==> s[i] <= s[j]
  }

  function Insert(x: int, s: seq<int>): seq<int> {
    if s == [] || x <= s[0] then [x] + s else [s[0]] + Insert(x, s[1..])
  }

  /** `sort((a, b) => a - b)`: numeric ascending order. */
  function SortStates(s: seq<int>): seq<int> {
    if s == [] then [] else Insert(s[0], SortStates(s[1..]))
  }

  lemma AscendingCons(h: int, r: seq<int>)
    requires Ascending(r)
    requires forall k :: 0 <= k < |r| ==> h <= r[k]
    ensures Ascending([h] + r)
  {
    var s := [h] + r;
    forall i, j | 0 <= i < j < |s| ensures s[i] <= s[j] {
      assert s[j] == r[j - 1];
      if i > 0 {
        assert s[i] == r[i - 1];
      }
    }
  }

  lemma {:induction false} InsertProperties(x: int, s: seq<int>)
    requires Ascending(s)
    ensures Ascending(Insert(x, s)) && multiset(Insert(x, s)) == multiset(s) + multiset{x}
  {
    if s == [] || x <= s[0] {
      AscendingCons(x, s);
    } else {
      var t := s[1..];
      assert s == [s[0]] + t;
      assert Ascending(t);
      InsertProperties(x, t);
      var r := Insert(x, t);
      forall k | 0 <= k < |r| ensures s[0] <= r[k] {
        assert r[k] in multiset(r);
        assert r[k] == x || r[k] in multiset(t);
      }
      AscendingCons(s[0], r);
    }
  }

  /** The sorted states are in ascending order and are the same states. */
  lemma {:induction false} SortStatesProperties(s: seq<int>)
    ensures Ascending(SortStates(s)) && multiset(SortStates(s)) == multiset(s)
  {
    if s != [] {
      SortStatesProperties(s[1..]);
      InsertProperties(s[0], SortStates(s[1..]));
      assert s == [s[0]] + s[1..];
    }
  }

  /** Distinct states come out strictly ascending. */
  lemma SortStatesStrict(s: seq<int>)
    requires NoDuplicates(s)
    ensures forall i, j :: 0 <= i < j < |SortStates(s)| ==> SortStates(s)[i] < SortStates(s)[j]
  {
    var r := SortStates(s);
    SortStatesProperties(s);
    DistinctCounts(s);
    forall i, j | 0 <= i < j < |r| ensures r[i] < r[j] {
      if r[i] == r[j] {
        TwoCopies(r, i, j);
      }
    }
  }

  lemma {:induction false} DistinctCounts(s: seq<int>)
    requires NoDuplicates(s)
    ensures forall x :: multiset(s)[x] <= 1
  {
    if s != [] {
      DistinctCounts(s[1..]);
      assert s == [s[0]] + s[1..];
      assert s[0] !in s[1..];
    }
  }

  lemma {:induction false} TwoCopies(r: seq<int>, i: nat, j: nat)
    requires i < j < |r| && r[i] == r[j]
    ensures multiset(r)[r[i]] >= 2
  {
    assert r == r[..j] + [r[j]] + r[j + 1..];
    assert r[i] in r[..j];
  }

  // ---------------------------------------------------------------------
  // Cells and rows

  /** A cell shows the entry's action and value, or "-" when the table has
      no entry for the pair. */
  function CellText(table: map<string, Entry>, state: int, symbol: string): string {
    var key := EncodeKey(state, symbol);
    if key in table then table[key].action + " " + table[key].value else "-"
  }

  /** A cell shows "-" exactly when the table has no entry under its key;
      an entry's text always holds the space between action and value. */
  lemma CellDash(table: map<string, Entry>, state: int, symbol: string)
    ensures CellText(table, state, symbol) == "-" <==> EncodeKey(state, symbol) !in table
  {
    var key := EncodeKey(state, symbol);
    if key in table {
      var text := table[key].action + " " + table[key].value;
      assert text[|table[key].action|] == ' ';
      assert text != "-";
    }
  }

  function Cells(table: map<string, Entry>, state: int, symbols: seq<string>): (r: seq<string>)
    ensures |r| == |symbols|
    ensures forall k :: 0 <= k < |r| ==> r[k] == CellText(table, state, symbols[k])
  {
    if symbols == [] then [] else [CellText(table, state, symbols[0])] + Cells(table, state, symbols[1..])
  }

  /** A row: the state, then its ACTION cells, then its GOTO cells. */
  function Row(table: map<string, Entry>, state: int, cols: Columns): seq<string> {
    [IntToString(state)] + Cells(table, state, cols.terminals) + Cells(table, state, cols.nonTerminals)
  }

  /** One row per state, in sorted order. */
  function Grid(table: map<string, Entry>, cols: Columns): seq<seq<string>> {
    var sorted := SortStates(cols.states);
    seq(|sorted|, i requires 0 <= i < |sorted| => Row(table, sorted[i], cols))
  }

  /** The grid of decoded columns, whose states are distinct, has one row
      per state, labelled with the states in strictly ascending order, each
      row as wide as the two column lists together. */
  lemma GridShape(table: map<string, Entry>, cols: Columns)
    requires NoDuplicates(cols.states)
    ensures |Grid(table, cols)| == |cols.states| == |SortStates(cols.states)|
    ensures forall i :: 0 <= i < |Grid(table, cols)| ==>
      |Grid(table, cols)[i]| == 1 + |cols.terminals| + |cols.nonTerminals|
      && ParseInt(Grid(table, cols)[i][0]) == Some(SortStates(cols.states)[i])
    ensures forall i, j :: 0 <= i < j < |SortStates(cols.states)| ==> SortStates(cols.states)[i] < SortStates(cols.states)[j]
  {
    var sorted := SortStates(cols.states);
    assert |sorted| == |cols.states| by {
      SortStatesProperties(cols.states);
      assert |multiset(sorted)| == |multiset(cols.states)|;
    }
    SortStatesStrict(cols.states);
    forall i | 0 <= i < |sorted| ensures ParseInt(IntToString(sorted[i])) == Some(sorted[i]) {
      ParseIntOfString(sorted[i]);
    }
  }

  /** Every entry whose key the producer wrote for a symbol free of "_"
      appears in the grid: its state has a row, its symbol a column, and
      the cell at that row and column shows the entry. */
  lemma GridShowsEveryEntry(table: map<string, Entry>, keys: seq<string>, state: int, symbol: string)
    requires '_' !in symbol
    requires forall k :: k in keys <==> k in table
    requires EncodeKey(state, symbol) in table
    requires Decode(keys).Ok?
    ensures var cols := Decode(keys).value;
      state in SortStates(cols.states)
      && (symbol in cols.terminals || symbol in cols.nonTerminals)
      && CellText(table, state, symbol) == table[EncodeKey(state, symbol)].action + " " + table[EncodeKey(state, symbol)].value
  {
    var key := EncodeKey(state, symbol);
    var i :| 0 <= i < |keys| && keys[i] == key;
    DecodeEncodedKey(state, symbol, "");
    var parts := DecodeAll(keys).value;
    DecodedAt(keys, i);
    assert parts[i] == (state, symbol);
    var cols := ColumnsOf(parts);
    StatesInMembers(parts, state);
    DistinctProperties(StatesIn(parts));
    SortStatesProperties(cols.states);
    assert state in multiset(cols.states);
    assert state in multiset(SortStates(cols.states));
    SymbolsInMembers(parts, symbol);
    ClassifiedSymbols(parts, symbol);
    DistinctProperties(TerminalsIn(parts));
    DistinctProperties(NonTerminalsIn(parts));
  }

  lemma {:induction false} DecodedAt(keys: seq<string>, i: nat)
    requires i < |keys| && DecodeAll(keys).Ok?
    ensures |DecodeAll(keys).value| == |keys|
    ensures DecodeKey(keys[i]) == Ok(DecodeAll(keys).value[i])
  {
    var front := keys[..|keys| - 1];
    if DecodeAll(front).Ok? {
      if i < |keys| - 1 {
        DecodedAt(front, i);
      } else if front != [] {
        DecodedAt(front, 0);
      }
    }
  }
}
