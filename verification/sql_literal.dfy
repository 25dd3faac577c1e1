/**
 * The IN-list literal builder `sql_in` (app.py:40-42): every selected value
 * becomes a character string literal in single quotes, with each quote
 * inside the value doubled as section 5.3 <literal> of ISO/IEC 9075-2
 * prescribes, and the literals are joined by ", " inside parentheses.
 *
 * The partner of the builder is a reader for the same grammar: reading
 * back what `SqlIn` wrote returns exactly the selected values.
 */
module SqlLiteral {
  import opened Wrappers

  /** Number of single quotes in s. */
  function QuoteCount(s: string): nat
  {
    if |s| == 0 then 0 else (if s[0] == '\'' then 1 else 0) + QuoteCount(s[1..])
  }

  /**
   * The body of a well-formed literal: every quote is immediately
   * followed by a second quote, so no lone quote can end the literal early.
   */
  predicate QuotesPaired(t: string)
    decreases |t|
  {
    if |t| == 0 then true
    else if t[0] == '\'' then |t| >= 2 && t[1] == '\'' && QuotesPaired(t[2..])
    else QuotesPaired(t[1..])
  }

  /** `str(v).replace("'", "''")`: every single quote doubled. */
  function Escape(s: string): (r: string)
    ensures |r| == |s| + QuoteCount(s)
    ensures QuotesPaired(r)
    ensures forall c :: c in r <==> c in s
  {
    if |s| == 0 then ""
    else
      var rest := Escape(s[1..]);
      if s[0] == '\'' then
        assert ("''" + rest)[2..] == rest;
        "''" + rest
      else
        assert ([s[0]] + rest)[1..] == rest;
        assert forall c :: c in s <==> c == s[0] || c in s[1..];
        [s[0]] + rest
  }

  /** Un-doubling: the value a literal body denotes, or None when a quote stands alone. */
  function Unescape(t: string): (r: Option<string>)
    ensures r.Some? <==> QuotesPaired(t)
    decreases |t|
  {
    if |t| == 0 then Some("")
    else if t[0] == '\'' then
      if |t| >= 2 && t[1] == '\'' then
        match Unescape(t[2..])
        case None => None
        case Some(u) => Some("'" + u)
      else None
    else
      match Unescape(t[1..])
      case None => None
      case Some(u) => Some([t[0]] + u)
  }

  /** Un-doubling the escaped text recovers the original value. */
  lemma {:induction false} UnescapeEscape(s: string)
    ensures Unescape(Escape(s)) == Some(s)
    decreases |s|
  {
    if |s| > 0 {
      var rest := Escape(s[1..]);
      UnescapeEscape(s[1..]);
      assert s == [s[0]] + s[1..];
      if s[0] == '\'' {
        assert ("''" + rest)[2..] == rest;
      } else {
        assert ([s[0]] + rest)[1..] == rest;
      }
    }
  }

  /** Each well-formed body is the escaping of exactly one value. */
  lemma {:induction false} EscapeUnescape(t: string, s: string)
    requires Unescape(t) == Some(s)
    ensures Escape(s) == t
    decreases |t|
  {
    if |t| > 0 {
      if t[0] == '\'' {
        var u := Unescape(t[2..]).value;
        EscapeUnescape(t[2..], u);
        assert s == "'" + u && s[1..] == u;
        assert t == "''" + t[2..];
      } else {
        var u := Unescape(t[1..]).value;
        EscapeUnescape(t[1..], u);
        assert s == [t[0]] + u && s[1..] == u;
        assert t == [t[0]] + t[1..];
      }
    }
  }

  /** f"'{v}'" for an escaped value. */
  function Item(v: string): (r: string)
    ensures |r| >= 2 && r[0] == '\'' && r[|r| - 1] == '\''
    ensures r[1..|r| - 1] == Escape(v)
  {
    "'" + Escape(v) + "'"
  }

  /** `sep.join(xs)`. */
  function Join(sep: string, xs: seq<string>): string
  {
    if |xs| == 0 then ""
    else if |xs| == 1 then xs[0]
    else xs[0] + sep + Join(sep, xs[1..])
  }

  /** The quoted literal of every value, in selection order. */
  function Items(values: seq<string>): (r: seq<string>)
    ensures |r| == |values|
    ensures forall i :: 0 <= i < |values| ==> r[i] == Item(values[i])
  {
    seq(|values|, i requires 0 <= i < |values| => Item(values[i]))
  }

  /** `sql_in(values)`: the parenthesised, comma-separated literal list. */
  function SqlIn(values: seq<string>): (r: string)
    ensures |r| >= 2 && r[0] == '(' && r[|r| - 1] == ')'
  {
    "(" + Join(", ", Items(values)) + ")"
  }

  /*
   * Reading a literal list back.
   */

  /**
   * Reads a literal body that follows an opening quote, up to its closing
   * quote: the value it denotes and the text after the closing quote.
   */
  function ReadBody(t: string): (r: Option<(string, string)>)
    ensures r.Some? ==> |r.value.1| < |t|
    decreases |t|
  {
    if |t| == 0 then None
    else if t[0] == '\'' then
      if |t| >= 2 && t[1] == '\'' then
        match ReadBody(t[2..])
        case None => None
        case Some((v, rest)) => Some(("'" + v, rest))
      else Some(("", t[1..]))
    else
      match ReadBody(t[1..])
      case None => None
      case Some((v, rest)) => Some(([t[0]] + v, rest))
  }

  /** One or more quoted literals separated by ", "; returns the values and what follows. */
  function ReadItems(t: string): (r: Option<(seq<string>, string)>)
    ensures r.Some? ==> |r.value.0| >= 1 && |r.value.1| < |t|
    decreases |t|
  {
    if |t| == 0 || t[0] != '\'' then None
    else
      match ReadBody(t[1..])
      case None => None
      case Some((v, rest)) =>
        if |rest| >= 2 && rest[..2] == ", " then
          match ReadItems(rest[2..])
          case None => None
          case Some((vs, rest')) => Some(([v] + vs, rest'))
        else Some(([v], rest))
  }

  /** A parenthesised literal list at the front of t; returns the values and what follows. */
  function ReadInList(t: string): (r: Option<(seq<string>, string)>)
    ensures r.Some? ==> |r.value.1| < |t|
  {
    if |t| < 2 || t[0] != '(' then None
    else if t[1] == ')' then Some(([], t[2..]))
    else
      match ReadItems(t[1..])
      case None => None
      case Some((vs, rest)) =>
        if |rest| >= 1 && rest[0] == ')' then Some((vs, rest[1..])) else None
  }

  /** The closing quote written by Item is found again, whatever follows it. */
  lemma {:induction false} ReadBodyEscape(s: string, rest: string)
    requires |rest| == 0 || rest[0] != '\''
    ensures ReadBody(Escape(s) + "'" + rest) == Some((s, rest))
    decreases |s|
  {
    var t := Escape(s) + "'" + rest;
    if |s| == 0 {
      assert t == "'" + rest;
      assert t[1..] == rest;
    } else {
      var e := Escape(s[1..]);
      ReadBodyEscape(s[1..], rest);
      assert s == [s[0]] + s[1..];
      if s[0] == '\'' {
        assert t == "''" + (e + "'" + rest);
        assert t[2..] == e + "'" + rest;
      } else {
        assert t == [s[0]] + (e + "'" + rest);
        assert t[1..] == e + "'" + rest;
      }
    }
  }

  lemma {:induction false} JoinItemsCons(values: seq<string>)
    requires |values| >= 2
    ensures Join(", ", Items(values)) == Item(values[0]) + ", " + Join(", ", Items(values[1..]))
  {
    assert Items(values)[1..] == Items(values[1..]);
  }

  /** The last literal of a list: what follows it is not a separator. */
  lemma {:induction false} ReadItemsLast(v: string, tail: string)
    requires |tail| >= 1 && tail[0] == ')'
    ensures ReadItems(Item(v) + tail) == Some(([v], tail))
  {
    var t := Item(v) + tail;
    assert t == "'" + (Escape(v) + "'" + tail);
    assert t[1..] == Escape(v) + "'" + tail;
    ReadBodyEscape(v, tail);
  }

  /** A literal followed by ", " and more literals. */
  lemma {:induction false} ReadItemsNext(v: string, more: string)
    requires ReadItems(more).Some?
    ensures ReadItems(Item(v) + ", " + more)
         == Some(([v] + ReadItems(more).value.0, ReadItems(more).value.1))
  {
    var t := Item(v) + ", " + more;
    assert t == "'" + (Escape(v) + "'" + (", " + more));
    assert t[1..] == Escape(v) + "'" + (", " + more);
    ReadBodyEscape(v, ", " + more);
    assert (", " + more)[..2] == ", ";
    assert (", " + more)[2..] == more;
  }

  /** Reading the joined literals back yields the values; the text after them is untouched. */
  lemma {:induction false} ReadItemsJoin(values: seq<string>, tail: string)
    requires |values| >= 1
    requires |tail| >= 1 && tail[0] == ')'
    ensures ReadItems(Join(", ", Items(values)) + tail) == Some((values, tail))
    decreases |values|
  {
    if |values| == 1 {
      assert Join(", ", Items(values)) == Item(values[0]);
      ReadItemsLast(values[0], tail);
      assert [values[0]] == values;
    } else {
      var more := Join(", ", Items(values[1..])) + tail;
      JoinItemsCons(values);
      assert Join(", ", Items(values)) + tail == Item(values[0]) + ", " + more;
      ReadItemsJoin(values[1..], tail);
      ReadItemsNext(values[0], more);
      assert [values[0]] + values[1..] == values;
    }
  }

  /** Round trip: the reader recovers exactly the values `sql_in` was given. */
  lemma {:induction false} ReadInListSqlIn(values: seq<string>, tail: string)
    ensures ReadInList(SqlIn(values) + tail) == Some((values, tail))
  {
    var t := SqlIn(values) + tail;
    if |values| == 0 {
      assert Join(", ", Items(values)) == "";
      assert t == "()" + tail;
      assert t[2..] == tail;
    } else {
      var body := Join(", ", Items(values));
      assert t == "(" + (body + (")" + tail));
      assert t[1..] == body + (")" + tail);
      if |values| == 1 {
        assert body == Item(values[0]);
      } else {
        JoinItemsCons(values);
      }
      assert t[1] == '\'';
      ReadItemsJoin(values, ")" + tail);
      assert (")" + tail)[1..] == tail;
    }
  }

  /**
   * The items of `sql_in`: each one is a quoted literal whose interior
   * has its quotes paired and un-doubles to the value, and the list is
   * the bare `()` exactly when nothing is selected.
   */
  lemma {:induction false} SqlInShape(values: seq<string>)
    ensures forall i :: 0 <= i < |values| ==>
      var item := Items(values)[i];
      && item[0] == '\'' && item[|item| - 1] == '\''
      && QuotesPaired(item[1..|item| - 1])
      && Unescape(item[1..|item| - 1]) == Some(values[i])
    ensures SqlIn(values) == "()" <==> |values| == 0
  {
    forall i | 0 <= i < |values|
      ensures Unescape(Items(values)[i][1..|Items(values)[i]| - 1]) == Some(values[i])
    {
      UnescapeEscape(values[i]);
    }
    if |values| > 0 {
      assert |Join(", ", Items(values))| >= |Items(values)[0]| >= 2;
    }
  }
}
