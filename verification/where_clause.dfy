/**
 * The filter clause builder `build_where_clause` (app.py:45-60): one
 * `col IN (...)` condition per non-empty multiselect, always in the order
 * risk_tolerance, region, account_type, joined by " AND " after "WHERE ";
 * the empty string when nothing is selected.
 *
 * The partner is a reader for the clauses the builder writes: reading back
 * the built clause returns the three selections unchanged.
 */
module WhereClause {
  import opened Wrappers
  import opened SqlLiteral

  /** The three filterable columns, in the order the builder tests them. */
  datatype Column = RiskTolerance | Region | AccountType

  function ColumnName(c: Column): string
  {
    match c
    case RiskTolerance => "risk_tolerance"
    case Region => "region"
    case AccountType => "account_type"
  }

  /** Position of the column in the builder's fixed order. */
  function Rank(c: Column): nat
  {
    match c
    case RiskTolerance => 0
    case Region => 1
    case AccountType => 2
  }

  /** The values selected in the three sidebar multiselects. */
  datatype Selections = Selections(risks: seq<string>, regions: seq<string>, accountTypes: seq<string>)

  /** One `col IN (...)` condition: a column and the values it must take. */
  datatype Condition = Condition(column: Column, values: seq<string>)

  function ClauseText(c: Condition): string
  {
    ColumnName(c.column) + " IN " + SqlIn(c.values)
  }

  /** The conditions the builder emits: one per non-empty selection, in column order. */
  function Conditions(sel: Selections): (cs: seq<Condition>)
    ensures forall i :: 0 <= i < |cs| ==> |cs[i].values| > 0
    ensures forall i, j :: 0 <= i < j < |cs| ==> Rank(cs[i].column) < Rank(cs[j].column)
    ensures |sel.risks| > 0 <==> Condition(RiskTolerance, sel.risks) in cs
    ensures |sel.regions| > 0 <==> Condition(Region, sel.regions) in cs
    ensures |sel.accountTypes| > 0 <==> Condition(AccountType, sel.accountTypes) in cs
    ensures |cs| <= 3
  {
    Piece(RiskTolerance, sel.risks) + Piece(Region, sel.regions) + Piece(AccountType, sel.accountTypes)
  }

  /** The condition one selection contributes: none when nothing is selected. */
  function Piece(col: Column, values: seq<string>): (r: seq<Condition>)
    ensures |values| > 0 ==> r == [Condition(col, values)]
    ensures |values| == 0 ==> r == []
  {
    if |values| > 0 then [Condition(col, values)] else []
  }

  /** The text of each condition, in order. */
  function ClauseTexts(cs: seq<Condition>): (r: seq<string>)
    ensures |r| == |cs|
    ensures forall i :: 0 <= i < |cs| ==> r[i] == ClauseText(cs[i])
  {
    seq(|cs|, i requires 0 <= i < |cs| => ClauseText(cs[i]))
  }

  /**
   * `build_where_clause(risks_selected, regions_selected, accts_selected)`:
   * the `clauses` list is the text of the conditions, built by the three
   * conditional appends.
   */
  function BuildWhereClause(risks: seq<string>, regions: seq<string>, accts: seq<string>): (r: string)
    ensures r == "" <==> |risks| == 0 && |regions| == 0 && |accts| == 0
    ensures r != "" ==> |r| >= 6 && r[..6] == "WHERE "
  {
    var clauses := ClauseTexts(Conditions(Selections(risks, regions, accts)));
    if |clauses| == 0 then ""
    else
      var r := "WHERE " + Join(" AND ", clauses);
      assert r[..6] == "WHERE ";
      r
  }

  /*
   * Reading a built clause back.
   */

  /** The text up to the first space, and the rest starting at that space. */
  function ReadWord(t: string): (r: (string, string))
    ensures |r.0| + |r.1| == |t|
    decreases |t|
  {
    if |t| == 0 || t[0] == ' ' then ("", t)
    else
      var (w, rest) := ReadWord(t[1..]);
      ([t[0]] + w, rest)
  }

  function ColumnNamed(name: string): Option<Column>
  {
    if name == "risk_tolerance" then Some(RiskTolerance)
    else if name == "region" then Some(Region)
    else if name == "account_type" then Some(AccountType)
    else None
  }

  /** `col IN (...)` at the front of t: the condition and what follows it. */
  function ReadCondition(t: string): (r: Option<(Condition, string)>)
    ensures r.Some? ==> |r.value.1| < |t|
  {
    var (w, rest) := ReadWord(t);
    match ColumnNamed(w)
    case None => None
    case Some(c) =>
      if |rest| >= 4 && rest[..4] == " IN " then
        match ReadInList(rest[4..])
        case None => None
        case Some((vs, rest')) => Some((Condition(c, vs), rest'))
      else None
  }

  /** One or more conditions separated by " AND ", filling the whole text. */
  function ReadConjunction(t: string): (r: Option<seq<Condition>>)
    decreases |t|
  {
    match ReadCondition(t)
    case None => None
    case Some((c, rest)) =>
      if |rest| == 0 then Some([c])
      else if |rest| >= 5 && rest[..5] == " AND " then
        match ReadConjunction(rest[5..])
        case None => None
        case Some(cs) => Some([c] + cs)
      else None
  }

  /** Conditions in strictly increasing column order, each with a non-empty value list. */
  predicate WellFormed(cs: seq<Condition>)
  {
    && (forall i :: 0 <= i < |cs| ==> |cs[i].values| > 0)
    && (forall i, j :: 0 <= i < j < |cs| ==> Rank(cs[i].column) < Rank(cs[j].column))
  }

  /** The values a condition list puts on one column ([] when the column is unconstrained). */
  function ValuesOf(cs: seq<Condition>, col: Column): seq<string>
  {
    if |cs| == 0 then []
    else if cs[0].column == col then cs[0].values
    else ValuesOf(cs[1..], col)
  }

  /** The selections a clause stands for, or None when it is not one the builder can write. */
  function ReadWhere(t: string): (r: Option<Selections>)
  {
    if |t| == 0 then Some(Selections([], [], []))
    else if |t| >= 6 && t[..6] == "WHERE " then
      match ReadConjunction(t[6..])
      case None => None
      case Some(cs) =>
        if WellFormed(cs) then
          Some(Selections(ValuesOf(cs, RiskTolerance), ValuesOf(cs, Region), ValuesOf(cs, AccountType)))
        else None
    else None
  }

  lemma {:induction false} ReadWordColumn(c: Column, rest: string)
    requires |rest| >= 1 && rest[0] == ' '
    ensures ReadWord(ColumnName(c) + rest) == (ColumnName(c), rest)
  {
    var name := ColumnName(c);
    assert forall i :: 0 <= i < |name| ==> name[i] != ' ';
    ReadWordNoSpace(name, rest);
  }

  lemma {:induction false} ReadWordNoSpace(w: string, rest: string)
    requires forall i :: 0 <= i < |w| ==> w[i] != ' '
    requires |rest| >= 1 && rest[0] == ' '
    ensures ReadWord(w + rest) == (w, rest)
    decreases |w|
  {
    if |w| == 0 {
      assert w + rest == rest;
    } else {
      ReadWordNoSpace(w[1..], rest);
      assert (w + rest)[1..] == w[1..] + rest;
      assert [w[0]] + w[1..] == w;
    }
  }

  lemma ColumnNamedName(c: Column)
    ensures ColumnNamed(ColumnName(c)) == Some(c)
  {
  }

  /** A condition's text reads back as that condition, whatever follows it. */
  lemma {:induction false} ReadConditionText(c: Condition, tail: string)
    ensures ReadCondition(ClauseText(c) + tail) == Some((c, tail))
  {
    var name := ColumnName(c.column);
    var rest := " IN " + SqlIn(c.values) + tail;
    assert ClauseText(c) + tail == name + rest;
    ReadWordColumn(c.column, rest);
    ColumnNamedName(c.column);
    assert rest[..4] == " IN ";
    assert rest[4..] == SqlIn(c.values) + tail;
    ReadInListSqlIn(c.values, tail);
  }

  /** The last condition: nothing follows it. */
  lemma {:induction false} ReadConjunctionLast(c: Condition)
    ensures ReadConjunction(ClauseText(c)) == Some([c])
  {
    assert ClauseText(c) + "" == ClauseText(c);
    ReadConditionText(c, "");
  }

  /** A condition followed by " AND " and more conditions. */
  lemma {:induction false} ReadConjunctionNext(c: Condition, more: string)
    requires ReadConjunction(more).Some?
    ensures ReadConjunction(ClauseText(c) + " AND " + more) == Some([c] + ReadConjunction(more).value)
  {
    var tail := " AND " + more;
    assert ClauseText(c) + " AND " + more == ClauseText(c) + tail;
    ReadConditionText(c, tail);
    assert tail[..5] == " AND ";
    assert tail[5..] == more;
  }

  /** The condition texts of cs, joined by " AND ", read back as cs. */
  lemma {:induction false} ReadConjunctionJoin(cs: seq<Condition>)
    requires |cs| >= 1
    ensures ReadConjunction(Join(" AND ", ClauseTexts(cs))) == Some(cs)
    decreases |cs|
  {
    if |cs| == 1 {
      ReadConjunctionLast(cs[0]);
      assert [cs[0]] == cs;
    } else {
      assert ClauseTexts(cs)[1..] == ClauseTexts(cs[1..]);
      ReadConjunctionJoin(cs[1..]);
      ReadConjunctionNext(cs[0], Join(" AND ", ClauseTexts(cs[1..])));
      assert [cs[0]] + cs[1..] == cs;
    }
  }

  /** ValuesOf skips the conditions in front that are on other columns. */
  lemma {:induction false} ValuesOfSkip(front: seq<Condition>, back: seq<Condition>, col: Column)
    requires forall i :: 0 <= i < |front| ==> front[i].column != col
    ensures ValuesOf(front + back, col) == ValuesOf(back, col)
    decreases |front|
  {
    if |front| > 0 {
      assert (front + back)[1..] == front[1..] + back;
      ValuesOfSkip(front[1..], back, col);
    } else {
      assert front + back == back;
    }
  }

  /** ValuesOf stops at the first condition on the column. */
  lemma ValuesOfFirst(c: Condition, back: seq<Condition>)
    ensures ValuesOf([c] + back, c.column) == c.values
  {
  }

  lemma {:induction false} ValuesOfPiece(col: Column, values: seq<string>, back: seq<Condition>)
    ensures ValuesOf(Piece(col, values) + back, col) == (if |values| > 0 then values else ValuesOf(back, col))
  {
    if |values| > 0 {
      ValuesOfFirst(Condition(col, values), back);
    } else {
      assert Piece(col, values) + back == back;
    }
  }

  lemma {:induction false} ValuesOfConditions(sel: Selections)
    ensures ValuesOf(Conditions(sel), RiskTolerance) == sel.risks
    ensures ValuesOf(Conditions(sel), Region) == sel.regions
    ensures ValuesOf(Conditions(sel), AccountType) == sel.accountTypes
  {
    var r := Piece(RiskTolerance, sel.risks);
    var g := Piece(Region, sel.regions);
    var a := Piece(AccountType, sel.accountTypes);
    assert Conditions(sel) == r + (g + a);
    ValuesOfRisks(r, g, a, sel.risks);
    ValuesOfRegions(r, g, a, sel.regions);
    ValuesOfAccountTypes(r, g, a, sel.accountTypes);
  }

  lemma {:induction false} ValuesOfRegions(r: seq<Condition>, g: seq<Condition>, a: seq<Condition>, regions: seq<string>)
    requires forall i :: 0 <= i < |r| ==> r[i].column == RiskTolerance
    requires g == Piece(Region, regions)
    requires forall i :: 0 <= i < |a| ==> a[i].column == AccountType
    ensures ValuesOf(r + (g + a), Region) == regions
  {
    ValuesOfSkip(r, g + a, Region);
    ValuesOfPiece(Region, regions, a);
    ValuesOfSkip(a, [], Region);
    assert a + [] == a;
  }

  lemma {:induction false} ValuesOfAccountTypes(r: seq<Condition>, g: seq<Condition>, a: seq<Condition>, accts: seq<string>)
    requires forall i :: 0 <= i < |r| ==> r[i].column == RiskTolerance
    requires forall i :: 0 <= i < |g| ==> g[i].column == Region
    requires a == Piece(AccountType, accts)
    ensures ValuesOf(r + (g + a), AccountType) == accts
  {
    assert r + (g + a) == (r + g) + (a + []);
    ValuesOfSkip(r + g, a + [], AccountType);
    ValuesOfPiece(AccountType, accts, []);
  }

  lemma {:induction false} ValuesOfRisks(r: seq<Condition>, g: seq<Condition>, a: seq<Condition>, risks: seq<string>)
    requires r == Piece(RiskTolerance, risks)
    requires forall i :: 0 <= i < |g + a| ==> (g + a)[i].column != RiskTolerance
    ensures ValuesOf(r + (g + a), RiskTolerance) == risks
  {
    ValuesOfPiece(RiskTolerance, risks, g + a);
    ValuesOfSkip(g + a, [], RiskTolerance);
    assert g + a + [] == g + a;
  }

  /**
   * Round trip: reading back the built clause gives the three selections,
   * so the clause names each non-empty selection once, with its values
   * intact, and nothing else.
   */
  lemma {:induction false} ReadWhereBuild(risks: seq<string>, regions: seq<string>, accts: seq<string>)
    ensures ReadWhere(BuildWhereClause(risks, regions, accts)) == Some(Selections(risks, regions, accts))
  {
    var sel := Selections(risks, regions, accts);
    var cs := Conditions(sel);
    ValuesOfConditions(sel);
    if |cs| > 0 {
      var t := BuildWhereClause(risks, regions, accts);
      assert t[6..] == Join(" AND ", ClauseTexts(cs));
      ReadConjunctionJoin(cs);
    }
  }
}
