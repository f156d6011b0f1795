/**
 * The LR(1)-sets view of the frontend: one block per state, titled
 * "State <n>", listing every item as "A → α •β, a".  The body is split on
 * single spaces and the piece at the dot position is prefixed with "•".
 */
module ItemView {
  import opened Text
  import opened Items

  /** The bullet that marks the dot. */
  const Bullet: char := '•'

  /** The pieces of a body with the one at index `dot` prefixed with the
      bullet (no piece is marked when `dot` is past the end). */
  function MarkDot(pieces: seq<string>, dot: int): seq<string> {
    if pieces == [] then []
    else [if dot == 0 then [Bullet] + pieces[0] else pieces[0]] + MarkDot(pieces[1..], dot - 1)
  }

  /** Marking changes only the piece at index `dot`, which gains the
      bullet as a prefix; the number of pieces stays the same. */
  lemma {:induction false} MarkDotPieces(pieces: seq<string>, dot: int)
    ensures |MarkDot(pieces, dot)| == |pieces|
    ensures forall i :: 0 <= i < |pieces| ==>
      MarkDot(pieces, dot)[i] == if i == dot then [Bullet] + pieces[i] else pieces[i]
  {
    if pieces != [] {
      MarkDotPieces(pieces[1..], dot - 1);
    }
  }

  function DottedBody(production: string, dot: nat): string {
    Join(MarkDot(SplitOn(production, ' '), dot), " ")
  }

  /** The text of an item: left-hand side, arrow, dotted body, comma and
      lookahead. */
  function ItemText(it: Item): string {
    it.lhs + " → " + DottedBody(it.body, it.dot) + ", " + it.lookahead
  }

  function StateTitle(state: nat): string {
    "State " + IntToString(state)
  }

  /** One rendered state: its title and its item lines. */
  datatype StateBlock = StateBlock(title: string, lines: seq<string>)

  function ItemLines(items: seq<Item>): (r: seq<string>)
    ensures |r| == |items| && forall k :: 0 <= k < |r| ==> r[k] == ItemText(items[k])
  {
    if items == [] then [] else [ItemText(items[0])] + ItemLines(items[1..])
  }

  /** The view: the states in the order received, each numbered by its
      position, each listing its items in the order received. */
  function SetsView(sets: seq<seq<Item>>): (r: seq<StateBlock>)
    ensures |r| == |sets|
    ensures forall i :: 0 <= i < |r| ==>
      r[i].title == StateTitle(i) && |r[i].lines| == |sets[i]|
      && forall k :: 0 <= k < |sets[i]| ==> r[i].lines[k] == ItemText(sets[i][k])
  {
    seq(|sets|, i requires 0 <= i < |sets| => StateBlock(StateTitle(i), ItemLines(sets[i])))
  }

  /** A listing of every LR(1) set shows each item of state i in the block
      of state i. */
  lemma EveryItemShown(lr1Items: seq<set<Item>>, sets: seq<seq<Item>>, i: nat, it: Item)
    requires |sets| == |lr1Items|
    requires forall j :: 0 <= j < |sets| ==> forall x :: x in sets[j] <==> x in lr1Items[j]
    requires i < |lr1Items| && it in lr1Items[i]
    ensures StateTitle(i) == SetsView(sets)[i].title && ItemText(it) in SetsView(sets)[i].lines
  {
    var k :| 0 <= k < |sets[i]| && sets[i][k] == it;
    assert SetsView(sets)[i].lines[k] == ItemText(it);
  }

  // ---------------------------------------------------------------------
  // The bullet

  function CountBullets(s: string): nat {
    if s == [] then 0 else (if s[0] == Bullet then 1 else 0) + CountBullets(s[1..])
  }

  function RemoveBullets(s: string): string {
    if s == [] then [] else (if s[0] == Bullet then [] else [s[0]]) + RemoveBullets(s[1..])
  }

  lemma {:induction false} BulletsAppend(a: string, b: string)
    ensures CountBullets(a + b) == CountBullets(a) + CountBullets(b)
    ensures RemoveBullets(a + b) == RemoveBullets(a) + RemoveBullets(b)
  {
    if a == [] {
      assert a + b == b;
    } else {
      assert (a + b)[1..] == a[1..] + b;
      BulletsAppend(a[1..], b);
    }
  }

  function SumBullets(pieces: seq<string>): nat {
    if pieces == [] then 0 else CountBullets(pieces[0]) + SumBullets(pieces[1..])
  }

  /** The bullets of joined pieces are those of the pieces. */
  lemma {:induction false} BulletsOfJoin(pieces: seq<string>)
    ensures CountBullets(Join(pieces, " ")) == SumBullets(pieces)
  {
    if |pieces| == 1 {
      assert pieces[1..] == [];
    } else if |pieces| > 1 {
      BulletsOfJoin(pieces[1..]);
      BulletsAppend(pieces[0] + " ", Join(pieces[1..], " "));
      BulletsAppend(pieces[0], " ");
    }
  }

  lemma {:induction false} BulletsOfMark(pieces: seq<string>, dot: int)
    ensures SumBullets(MarkDot(pieces, dot)) == SumBullets(pieces) + (if 0 <= dot < |pieces| then 1 else 0)
  {
    if pieces != [] {
      BulletsOfMark(pieces[1..], dot - 1);
      if dot == 0 {
        BulletsAppend([Bullet], pieces[0]);
      }
    }
  }

  /** Removing the bullets from joined marked pieces gives the joined
      pieces with their own bullets removed. */
  lemma {:induction false} RemoveBulletsOfMark(pieces: seq<string>, dot: int)
    ensures RemoveBullets(Join(MarkDot(pieces, dot), " ")) == RemoveBullets(Join(pieces, " "))
  {
    if pieces != [] {
      var head := if dot == 0 then [Bullet] + pieces[0] else pieces[0];
      var marked := MarkDot(pieces, dot);
      assert marked[0] == head && marked[1..] == MarkDot(pieces[1..], dot - 1);
      BulletsAppend([Bullet], pieces[0]);
      assert RemoveBullets(head) == RemoveBullets(pieces[0]);
      if |pieces| > 1 {
        RemoveBulletsOfMark(pieces[1..], dot - 1);
        BulletsAppend(head + " ", Join(marked[1..], " "));
        BulletsAppend(head, " ");
        BulletsAppend(pieces[0] + " ", Join(pieces[1..], " "));
        BulletsAppend(pieces[0], " ");
      }
    }
  }

  /** The rendered body holds exactly one bullet more than the body when
      the dot falls inside it, and no more bullets otherwise. */
  lemma DottedBodyBullets(production: string, dot: nat)
    ensures CountBullets(DottedBody(production, dot)) ==
      CountBullets(production) + (if dot < |SplitOn(production, ' ')| then 1 else 0)
  {
    var pieces := SplitOn(production, ' ');
    BulletsOfJoin(MarkDot(pieces, dot));
    BulletsOfMark(pieces, dot);
    BulletsOfJoin(pieces);
    JoinSplitOn(production, ' ');
  }

  /** Deleting the bullets from the rendered body gives back the body (with
      its own bullets deleted). */
  lemma DottedBodyErasesToBody(production: string, dot: nat)
    ensures RemoveBullets(DottedBody(production, dot)) == RemoveBullets(production)
  {
    RemoveBulletsOfMark(SplitOn(production, ' '), dot);
    JoinSplitOn(production, ' ');
  }

  lemma {:induction false} MarkPastEnd(pieces: seq<string>, dot: int)
    requires dot < 0 || dot >= |pieces|
    ensures MarkDot(pieces, dot) == pieces
  {
    if pieces != [] {
      MarkPastEnd(pieces[1..], dot - 1);
    }
  }

  /** A dot at or past the last piece leaves the body as it is; the empty
      body is a single empty piece, so with the dot at 0 it renders as the
      bullet alone. */
  lemma DottedBodyEnds(production: string, dot: nat)
    ensures dot >= |SplitOn(production, ' ')| ==> DottedBody(production, dot) == production
    ensures DottedBody("", 0) == [Bullet]
  {
    if dot >= |SplitOn(production, ' ')| {
      MarkPastEnd(SplitOn(production, ' '), dot);
      JoinSplitOn(production, ' ');
    }
    assert [""][1..] == [] && [Bullet] + "" == [Bullet];
    assert MarkDot([""], 0) == [[Bullet] + ""] + MarkDot([], -1);
  }

  /** Splitting on white space and on single spaces agree on words joined
      by single spaces. */
  lemma {:induction false} SplitsAgree(words: seq<string>)
    requires |words| >= 1
    requires forall k :: 0 <= k < |words| ==> words[k] != "" && HasNoPySpace(words[k])
    ensures SplitWs(Join(words, " ")) == words
    ensures SplitOn(Join(words, " "), ' ') == words
  {
    SplitOnJoin(words, ' ');
    var w := words[0];
    if |words| == 1 {
      WordRun(w, "");
      assert w + "" == w && w[|w|..] == "";
    } else {
      SplitsAgree(words[1..]);
      var rest := " " + Join(words[1..], " ");
      WordRun(w, rest);
      assert Join(words, " ") == w + rest;
      assert (w + rest)[|w|..] == rest && rest[1..] == Join(words[1..], " ");
      assert words == [w] + words[1..];
    }
  }

  lemma {:induction false} WordRun(w: string, rest: string)
    requires HasNoPySpace(w)
    requires rest == [] || IsPySpace(rest[0])
    ensures WordLength(w + rest) == |w|
  {
    if w != [] {
      assert (w + rest)[1..] == w[1..] + rest;
      WordRun(w[1..], rest);
    } else {
      assert w + rest == rest;
    }
  }

  /** A completed item whose body is words separated by single spaces is
      shown without a bullet, since the backend's word count and the
      view's piece count agree. */
  lemma CompletedItemUnmarked(it: Item, words: seq<string>)
    requires |words| >= 1
    requires forall k :: 0 <= k < |words| ==> words[k] != "" && HasNoPySpace(words[k])
    requires it.body == Join(words, " ")
    requires it.dot == |BodyOf(it)|
    ensures DottedBody(it.body, it.dot) == it.body
  {
    SplitsAgree(words);
    DottedBodyEnds(it.body, it.dot);
  }

  /** The item "A → a A" with the dot before "A" and lookahead "$". */
  lemma ItemTextExample()
    ensures ItemText(Item("A", "a A", 1, "$")) == "A → a •A, $"
  {
    assert SplitOn("a A", ' ') == ["a", "A"] by {
      SplitOnJoin(["a", "A"], ' ');
      assert Join(["a", "A"], " ") == "a A";
    }
    assert MarkDot(["a", "A"], 1) == ["a", [Bullet] + "A"];
  }
}
