/**
 Per-field conflict strategies and what of "commutative, associative, idempotent" each of them keeps.

 `text` is Python's str.
*/
module Strategies {
  import Lex
  import opened Rows

  type Text = Value -> string

  datatype Strategy = LWW | MaxWins | MinWins | Priority(levels: seq<string>)

  /** The later index of a level given twice counts; unknown values rank below all levels. */
  function Rank(levels: seq<string>, s: string): int {
    if levels == [] then -1
    else if levels[|levels| - 1] == s then |levels| - 1
    else Rank(levels[..|levels| - 1], s)
  }

  predicate OneKind(a: Value, b: Value) {
    (a.Num? && b.Num?) || (a.Text? && b.Text?)
  }

  /** Python's `<=` where it is defined, and `<=` of the texts where it raises TypeError. */
  predicate AtMost(text: Text, a: Value, b: Value) {
    if a.Num? && b.Num? then a.n <= b.n
    else if a.Text? && b.Text? then Lex.Leq(a.s, b.s)
    else Lex.Leq(text(a), text(b))
  }

  function Resolve(st: Strategy, text: Text, a: Value, b: Value, ta: real, tb: real): Value {
    match st
    case LWW =>
      if tb > ta then b else if ta > tb then a
      else if text(a) != text(b) then (if Lex.Leq(text(b), text(a)) then a else b) else a
    case MaxWins => if a == Null then b else if b == Null then a else if AtMost(text, b, a) then a else b
    case MinWins => if a == Null then b else if b == Null then a else if AtMost(text, a, b) then a else b
    case Priority(levels) =>
      var ra, rb := Rank(levels, text(a)), Rank(levels, text(b));
      if ra > rb then a else if rb > ra then b else if Lex.Leq(text(b), text(a)) then a else b
  }

  // ---- what each strategy answers ----

  /** `r` is whichever of the values has the larger text, the first if both have one. */
  predicate LargerText(text: Text, a: Value, b: Value, r: Value) {
    (r == a || r == b) && Lex.Leq(text(a), text(r)) && Lex.Leq(text(b), text(r)) && (text(a) == text(b) ==> r == a)
  }

  /** LWW answers the value of the later time, and at one time the value of the larger text. */
  lemma LwwAnswers(text: Text, a: Value, b: Value, ta: real, tb: real)
    ensures var r := Resolve(LWW, text, a, b, ta, tb);
            if ta < tb then r == b else if tb < ta then r == a else LargerText(text, a, b, r)
  {
    LexFacts(text(a), text(b));
    LexFacts(text(b), text(a));
  }

  /** MaxWins answers the larger of two numbers or two texts, the larger text of a mixed pair, and never a null if it
      can help it; MinWins the smaller. Of equals it answers the first. */
  lemma MaxAndMinAnswer(text: Text, a: Value, b: Value, ta: real, tb: real)
    ensures var larger, smaller := Resolve(MaxWins, text, a, b, ta, tb), Resolve(MinWins, text, a, b, ta, tb);
            && (a == Null ==> larger == smaller == b) && (b == Null ==> larger == smaller == a)
            && (a.Num? && b.Num? ==> larger.Num? && smaller.Num? && larger.n >= a.n && larger.n >= b.n
                                     && smaller.n <= a.n && smaller.n <= b.n)
            && (a.Text? && b.Text? ==> larger.Text? && smaller.Text? && Lex.Leq(a.s, larger.s) && Lex.Leq(b.s, larger.s)
                                       && Lex.Leq(smaller.s, a.s) && Lex.Leq(smaller.s, b.s))
            && (a != Null && b != Null && !OneKind(a, b) ==>
                  LargerText(text, a, b, larger) && (smaller == a <==> Lex.Leq(text(a), text(b))))
            && larger in {a, b} && smaller in {a, b}
  {
    LexFacts(text(a), text(b));
    LexFacts(text(b), text(a));
    if a.Text? && b.Text? {
      LexFacts(a.s, b.s);
      LexFacts(b.s, a.s);
    }
  }

  /** The rank of a text is its last place among the levels, or below them all. */
  lemma {:induction false} RankIsLastPlace(levels: seq<string>, s: string)
    ensures s !in levels ==> Rank(levels, s) == -1
    ensures s in levels ==> 0 <= Rank(levels, s) < |levels| && levels[Rank(levels, s)] == s
    ensures forall i | Rank(levels, s) < i < |levels| :: levels[i] != s
    decreases |levels|
  {
    if levels != [] {
      var n := |levels| - 1;
      assert levels == levels[..n] + [levels[n]];
      if levels[n] != s {
        RankIsLastPlace(levels[..n], s);
        assert forall i | 0 <= i < n :: levels[i] == levels[..n][i];
      }
    }
  }

  /** Priority answers the value of the later level, and within one level the value of the larger text. */
  lemma PriorityAnswers(levels: seq<string>, text: Text, a: Value, b: Value, ta: real, tb: real)
    ensures var r, ra, rb := Resolve(Priority(levels), text, a, b, ta, tb), Rank(levels, text(a)), Rank(levels, text(b));
            if ra < rb then r == b else if rb < ra then r == a else LargerText(text, a, b, r)
  {
    LexFacts(text(a), text(b));
    LexFacts(text(b), text(a));
  }

  /** Two different values that only their positions tell apart. */
  predicate Confusable(st: Strategy, text: Text, a: Value, b: Value, ta: real, tb: real) {
    && a != b && text(a) == text(b)
    && match st
       case LWW => ta == tb
       case Priority(_) => true
       case _ => a != Null && b != Null && !OneKind(a, b)
  }

  lemma LexFacts(x: string, y: string)
    ensures Lex.Leq(x, y) || Lex.Leq(y, x)
    ensures Lex.Leq(x, x)
    ensures Lex.Leq(x, y) && Lex.Leq(y, x) ==> x == y
  {
    Lex.Total(x, y);
    Lex.Reflexive(x);
    if Lex.Leq(x, y) && Lex.Leq(y, x) { Lex.Antisymmetric(x, y); }
  }

  /** A strategy gives the same from either side exactly when the values are not confusable: a number and the text
      of its digits are, under every strategy, unless LWW has different times. */
  lemma CommutesIff(st: Strategy, text: Text, a: Value, b: Value, ta: real, tb: real)
    ensures Resolve(st, text, a, b, ta, tb) == Resolve(st, text, b, a, tb, ta) <==> !Confusable(st, text, a, b, ta, tb)
  {
    LexFacts(text(a), text(b));
    LexFacts(text(b), text(a));
    if a.Text? && b.Text? {
      LexFacts(a.s, b.s);
      LexFacts(b.s, a.s);
    }
  }

  lemma AtMostTransitive(text: Text, a: Value, b: Value, c: Value)
    requires OneKind(a, b) && OneKind(b, c) && AtMost(text, a, b) && AtMost(text, b, c)
    ensures AtMost(text, a, c)
  {
    if a.Text? { Lex.Transitive(a.s, b.s, c.s); }
  }

  lemma AtMostTotal(text: Text, a: Value, b: Value)
    ensures AtMost(text, a, b) || AtMost(text, b, a)
  {
    LexFacts(text(a), text(b));
    if a.Text? && b.Text? { LexFacts(a.s, b.s); }
  }

  predicate OneKindOrNull(a: Value, b: Value) {
    a == Null || b == Null || OneKind(a, b)
  }

  /** Under MaxWins or MinWins, the second value displaces the first. */
  predicate Displaces(st: Strategy, text: Text, second: Value, first: Value)
    requires st.MaxWins? || st.MinWins?
  {
    if st.MaxWins? then !AtMost(text, second, first) else !AtMost(text, first, second)
  }

  /** Displacing, or not displacing, does not carry over from the two neighbouring pairs to the outer one. */
  predicate Breaks(st: Strategy, text: Text, a: Value, b: Value, c: Value)
    requires st.MaxWins? || st.MinWins?
  {
    && a != Null && b != Null && c != Null
    && Displaces(st, text, b, a) == Displaces(st, text, c, b) != Displaces(st, text, c, a)
  }

  /** Without times, LWW and Priority associate on all values, and MaxWins and MinWins exactly where their
      comparison carries over: nulls, mixed kinds and equal texts included. */
  lemma AssociatesIff(st: Strategy, text: Text, a: Value, b: Value, c: Value, t: real)
    ensures Resolve(st, text, Resolve(st, text, a, b, t, t), c, t, t) == Resolve(st, text, a, Resolve(st, text, b, c, t, t), t, t)
            <==> (st.MaxWins? || st.MinWins? ==> !Breaks(st, text, a, b, c))
  {
    match st
    case LWW => TextsAssociate(text, a, b, c);
    case Priority(levels) => TextsAssociate(text, a, b, c);
    case _ =>
      AtMostTotal(text, a, b);
      AtMostTotal(text, a, a);
  }

  /** Values of one kind never break it. */
  lemma OneKindNeverBreaks(st: Strategy, text: Text, a: Value, b: Value, c: Value)
    requires st.MaxWins? || st.MinWins?
    requires OneKindOrNull(a, b) && OneKindOrNull(b, c) && OneKindOrNull(a, c)
    ensures !Breaks(st, text, a, b, c)
  {
    if a != Null && b != Null && c != Null {
      AtMostTotal(text, a, b);
      AtMostTotal(text, b, c);
      AtMostTotal(text, a, c);
      KindAssociates(text, a, b, c);
    }
  }

  lemma TextsAssociate(text: Text, a: Value, b: Value, c: Value)
    ensures Lex.Leq(text(a), text(b)) && Lex.Leq(text(b), text(c)) ==> Lex.Leq(text(a), text(c))
    ensures Lex.Leq(text(c), text(b)) && Lex.Leq(text(b), text(a)) ==> Lex.Leq(text(c), text(a))
    ensures Lex.Leq(text(a), text(b)) || Lex.Leq(text(b), text(a))
    ensures Lex.Leq(text(c), text(b)) || Lex.Leq(text(b), text(c))
    ensures Lex.Leq(text(a), text(b)) && Lex.Leq(text(b), text(a)) ==> text(a) == text(b)
    ensures Lex.Leq(text(c), text(b)) && Lex.Leq(text(b), text(c)) ==> text(c) == text(b)
    ensures Lex.Leq(text(a), text(c)) && Lex.Leq(text(c), text(a)) ==> text(a) == text(c)
  {
    LexFacts(text(a), text(b));
    LexFacts(text(b), text(c));
    LexFacts(text(a), text(c));
    if Lex.Leq(text(a), text(b)) && Lex.Leq(text(b), text(c)) { Lex.Transitive(text(a), text(b), text(c)); }
    if Lex.Leq(text(c), text(b)) && Lex.Leq(text(b), text(a)) { Lex.Transitive(text(c), text(b), text(a)); }
  }

  lemma KindAssociates(text: Text, a: Value, b: Value, c: Value)
    requires OneKind(a, b) && OneKind(b, c)
    ensures AtMost(text, a, b) && AtMost(text, b, c) ==> AtMost(text, a, c)
    ensures AtMost(text, c, b) && AtMost(text, b, a) ==> AtMost(text, c, a)
    ensures AtMost(text, a, c) && AtMost(text, c, a) ==> a == c
  {
    if AtMost(text, a, b) && AtMost(text, b, c) { AtMostTransitive(text, a, b, c); }
    if AtMost(text, c, b) && AtMost(text, b, a) { AtMostTransitive(text, c, b, a); }
    if a.Text? { LexFacts(a.s, c.s); }
  }

  /** Each of three values beats the next, round in a circle. */
  predicate Circle(text: Text, a: Value, b: Value, c: Value) {
    !AtMost(text, a, b) && !AtMost(text, b, c) && !AtMost(text, c, a)
  }

  /** Three values of different texts break it exactly when they beat each other in a circle. */
  lemma CirclesBreak(st: Strategy, text: Text, a: Value, b: Value, c: Value)
    requires st.MaxWins? || st.MinWins?
    requires a != Null && b != Null && c != Null
    requires text(a) != text(b) && text(b) != text(c) && text(a) != text(c)
    ensures Breaks(st, text, a, b, c) <==> Circle(text, a, b, c) || Circle(text, c, b, a)
  {
    Apart(text, a, b);
    Apart(text, b, c);
    Apart(text, a, c);
  }

  lemma Apart(text: Text, a: Value, b: Value)
    requires a != Null && b != Null && text(a) != text(b)
    ensures AtMost(text, a, b) <==> !AtMost(text, b, a)
  {
    AtMostTotal(text, a, b);
    LexFacts(text(a), text(b));
    if a.Text? && b.Text? { LexFacts(a.s, b.s); }
  }

  /** Mixed kinds do beat each other in a circle: 10 over 9 as numbers, 9 over "1a" and "1a" over 10 as texts. */
  lemma MaxCircle(text: Text)
    requires text(Num(10)) == "10" && text(Num(9)) == "9" && text(Text("1a")) == "1a"
    ensures Circle(text, Num(10), Num(9), Text("1a"))
  {
    assert "10"[1..] == "0" && "1a"[1..] == "a";
  }

  /** Values of one text break it too: 9 holds against "10" and "10" against 10, but 10 displaces 9. */
  lemma EqualTextBreaks(text: Text)
    requires text(Num(10)) == "10" && text(Num(9)) == "9" && text(Text("10")) == "10"
    ensures Breaks(MaxWins, text, Num(9), Text("10"), Num(10))
  {
    assert "10"[1..] == "0";
    Lex.Reflexive("10");
  }

  // ---- schemas ----

  datatype Schema = Schema(default: Strategy, fields: map<Column, Strategy>)

  function StrategyFor(s: Schema, c: Column): Strategy {
    if c in s.fields then s.fields[c] else s.default
  }

  /** The row policy of a schema; `timeOf` reads the timestamp column, zero without one. */
  function PolicyOf(s: Schema, text: Text, timeOf: Row -> real): Policy {
    Policy((c, a, b, ta, tb) => Resolve(StrategyFor(s, c), text, a, b, ta, tb), timeOf)
  }

  /** So where a schema has LWW for a column, joined rows hold the cell of the later row. */
  lemma LaterCellJoined(s: Schema, text: Text, timeOf: Row -> real, x: Row, y: Row, columns: set<Column>, r: Row, c: Column)
    requires (if c in s.fields then s.fields[c] else s.default) == LWW
    requires JoinedOver(PolicyOf(s, text, timeOf), x, y, columns, r) && c in columns
    requires Cell(x, c) != Null && Cell(y, c) != Null && timeOf(x) != timeOf(y)
    ensures r[c] == Cell(if timeOf(x) < timeOf(y) then y else x, c)
  {
    assert JoinedCell(PolicyOf(s, text, timeOf), c, x, y, r[c]);
    LwwAnswers(text, Cell(x, c), Cell(y, c), timeOf(x), timeOf(y));
  }

  /** Two rows merge to the same row from either side exactly when no column holds a confusable pair. */
  lemma RowCommutesIff(s: Schema, text: Text, timeOf: Row -> real, a: Row, b: Row)
    ensures var p := PolicyOf(s, text, timeOf);
            ResolveRow(p, a, b, a.Keys + b.Keys) == ResolveRow(p, b, a, b.Keys + a.Keys) <==>
            forall c | c in a.Keys + b.Keys && Cell(a, c) != Null && Cell(b, c) != Null ::
              !Confusable(StrategyFor(s, c), text, Cell(a, c), Cell(b, c), timeOf(a), timeOf(b))
  {
    var p := PolicyOf(s, text, timeOf);
    var columns := a.Keys + b.Keys;
    assert columns == b.Keys + a.Keys;
    forall c ensures ResolveCell(p, c, a, b) == ResolveCell(p, c, b, a) <==>
                     Cell(a, c) == Null || Cell(b, c) == Null
                     || !Confusable(StrategyFor(s, c), text, Cell(a, c), Cell(b, c), timeOf(a), timeOf(b))
    {
      CommutesIff(StrategyFor(s, c), text, Cell(a, c), Cell(b, c), timeOf(a), timeOf(b));
    }
    var x, y := ResolveRow(p, a, b, columns), ResolveRow(p, b, a, columns);
    if x == y {
      forall c | c in columns ensures ResolveCell(p, c, a, b) == ResolveCell(p, c, b, a) {
        assert x[c] == y[c];
      }
    }
  }
}
