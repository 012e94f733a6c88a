/** Text arrays on the wire: the printer that writes `{"a","b c"}`, and the parser that reads it back. */
module TextArray {
  import opened Wrappers

  // ---- the parser ----

  /** An element as it is kept: without the quotes around it, if it has both. */
  function Unquote(v: string): string {
    if |v| >= 2 && v[0] == '"' && v[|v| - 1] == '"' then v[1..|v| - 1] else v
  }

  /** The elements in `s`, when `cur` has been read of the first one. A last, empty element is dropped. */
  function Elements(s: string, cur: string, inQuotes: bool): seq<string> {
    if s == "" then (if cur != "" then [Unquote(cur)] else [])
    else if s[0] == '"' then Elements(s[1..], cur + [s[0]], !inQuotes)
    else if s[0] == ',' && !inQuotes then [Unquote(cur)] + Elements(s[1..], "", false)
    else Elements(s[1..], cur + [s[0]], inQuotes)
  }

  function Parsed(raw: string): seq<string> {
    if |raw| < 2 || raw[0] != '{' || raw[|raw| - 1] != '}' then [] else Elements(raw[1..|raw| - 1], "", false)
  }

  /** `ParsePgTextArray`. */
  method ParsePgTextArray(raw: string) returns (out: seq<string>)
    ensures out == Parsed(raw)
  {
    out := [];
    if |raw| < 2 || raw[0] != '{' || raw[|raw| - 1] != '}' {
      return;
    }
    var inner := raw[1..|raw| - 1];
    if inner == "" {
      return;
    }
    var cur, inQuotes := "", false;
    for i := 0 to |inner|
      invariant out + Elements(inner[i..], cur, inQuotes) == Elements(inner, "", false)
    {
      var c := inner[i];
      assert inner[i..][1..] == inner[i + 1..];
      if c == '"' {
        inQuotes := !inQuotes;
        cur := cur + [c];
        continue;
      }
      if c == ',' && !inQuotes {
        assert out + ([Unquote(cur)] + Elements(inner[i + 1..], "", false)) == out + [Unquote(cur)]
          + Elements(inner[i + 1..], "", false);
        out := out + [Unquote(cur)];
        cur := "";
        continue;
      }
      cur := cur + [c];
    }
    if |cur| > 0 {
      out := out + [Unquote(cur)];
    }
  }

  // ---- the printer ----

  /** `strings.ReplaceAll` of a single character by two. */
  function ReplaceAll(v: string, c: char, with: string): string {
    if v == "" then "" else (if v[0] == c then with else [v[0]]) + ReplaceAll(v[1..], c, with)
  }

  function Escaped(v: string): string { ReplaceAll(ReplaceAll(v, '\\', "\\\\"), '"', "\\\"") }

  function Joined(parts: seq<string>): string {
    if parts == [] then "" else if |parts| == 1 then parts[0] else parts[0] + "," + Joined(parts[1..])
  }

  function Quoted(v: string): string { "\"" + Escaped(v) + "\"" }

  function AllQuoted(values: seq<string>): seq<string> {
    seq(|values|, i requires 0 <= i < |values| => Quoted(values[i]))
  }

  /** `pgArray`: no literal at all for an empty list. */
  method PgArray(values: seq<string>) returns (literal: Option<string>)
    ensures literal == if values == [] then None else Some("{" + Joined(AllQuoted(values)) + "}")
  {
    if |values| == 0 {
      return None;
    }
    var parts: seq<string> := [];
    for i := 0 to |values|
      invariant parts == AllQuoted(values)[..i]
    {
      var v := ReplaceAll(values[i], '\\', "\\\\");
      v := ReplaceAll(v, '"', "\\\"");
      parts := parts + ["\"" + v + "\""];
    }
    assert AllQuoted(values)[..|values|] == AllQuoted(values);
    return Some("{" + Joined(parts) + "}");
  }

  // ---- the literal as the database reads it ----

  /** An element and what follows it. */
  datatype Element = Element(value: string, rest: string)

  /** Behind an opening quote: a backslash makes the next character stand for itself, the next bare quote ends it. */
  function ReadQuoted(s: string): (r: Option<Element>)
    ensures r.Some? ==> |r.value.rest| < |s|
  {
    if s == "" || s == "\\" then None
    else if s[0] == '"' then Some(Element("", s[1..]))
    else
      var n := if s[0] == '\\' then 1 else 0;
      match ReadQuoted(s[n + 1..])
      case None => None
      case Some(e) => Some(Element([s[n]] + e.value, e.rest))
  }

  /** Quoted elements with commas between them, up to the closing brace. */
  function ReadList(s: string): Option<seq<string>>
    decreases |s|
  {
    if s == "" || s[0] != '"' then None else
    match ReadQuoted(s[1..])
    case None => None
    case Some(Element(v, rest)) =>
      if rest == "}" then Some([v])
      else if rest == "" || rest[0] != ',' then None
      else
        match ReadList(rest[1..])
        case None => None
        case Some(vs) => Some([v] + vs)
  }

  function EscapedChar(c: char): string { if c == '\\' || c == '"' then ['\\', c] else [c] }

  lemma ReplaceCons(c: char, v: string, d: char, with: string)
    ensures ReplaceAll([c] + v, d, with) == (if c == d then with else [c]) + ReplaceAll(v, d, with)
  {
    assert ([c] + v)[1..] == v;
  }

  lemma EscapedCons(c: char, v: string)
    ensures Escaped([c] + v) == EscapedChar(c) + Escaped(v)
  {
    var inner := ReplaceAll(v, '\\', "\\\\");
    ReplaceCons(c, v, '\\', "\\\\");
    ReplaceCons(c, inner, '"', "\\\"");
    if c == '\\' {
      assert "\\\\" + inner == [c] + ([c] + inner);
      ReplaceCons(c, [c] + inner, '"', "\\\"");
    }
  }

  lemma CharIsRead(c: char, later: string, e: Element, s: string)
    requires ReadQuoted(later) == Some(e) && s == EscapedChar(c) + later
    ensures ReadQuoted(s) == Some(Element([c] + e.value, e.rest))
  {
    if c == '\\' || c == '"' {
      assert s[0] == '\\' && s[1] == c && s[2..] == later;
    } else {
      assert s[0] == c && s[1..] == later;
    }
  }

  /** A printed element is read as the element it was printed from, whatever characters it has. */
  lemma {:induction false} QuotedIsRead(v: string, rest: string)
    ensures ReadQuoted(Escaped(v) + ("\"" + rest)) == Some(Element(v, rest))
    decreases |v|
  {
    var tail := "\"" + rest;
    if v == "" {
      assert Escaped(v) + tail == tail && tail[1..] == rest;
    } else {
      var c, more := v[0], v[1..];
      assert v == [c] + more;
      EscapedCons(c, more);
      Associative(EscapedChar(c), Escaped(more), tail);
      QuotedIsRead(more, rest);
      CharIsRead(c, Escaped(more) + tail, Element(more, rest), Escaped(v) + tail);
    }
  }

  lemma Associative(a: string, b: string, c: string)
    ensures (a + b) + c == a + (b + c)
  {
  }

  lemma AllQuotedCons(values: seq<string>)
    requires values != []
    ensures AllQuoted(values) == [Quoted(values[0])] + AllQuoted(values[1..])
  {
  }

  /** So every list that is printed reaches the database as it is. */
  lemma {:induction false} DatabaseReadsTheList(values: seq<string>)
    requires values != []
    ensures ReadList(Joined(AllQuoted(values)) + "}") == Some(values)
    decreases |values|
  {
    var v := values[0];
    var tail := if |values| == 1 then "}" else "," + (Joined(AllQuoted(values[1..])) + "}");
    AllQuotedCons(values);
    assert Joined(AllQuoted(values)) + "}" == Quoted(v) + tail;
    assert Quoted(v) + tail == "\"" + (Escaped(v) + ("\"" + tail));
    QuotedIsRead(v, tail);
    FirstIsRead(v, tail);
    if |values| == 1 {
      assert values == [v];
    } else {
      DatabaseReadsTheList(values[1..]);
      assert tail[1..] == Joined(AllQuoted(values[1..])) + "}";
      assert values == [v] + values[1..];
    }
  }

  lemma FirstIsRead(v: string, tail: string)
    requires tail != ""
    ensures ReadList("\"" + (Escaped(v) + ("\"" + tail))) ==
      if tail == "}" then Some([v])
      else if tail[0] != ',' || ReadList(tail[1..]) == None then None else Some([v] + ReadList(tail[1..]).value)
  {
    var s := "\"" + (Escaped(v) + ("\"" + tail));
    assert s[1..] == Escaped(v) + ("\"" + tail);
    QuotedIsRead(v, tail);
  }

  // ---- the way back ----

  predicate Plain(v: string) { '"' !in v && '\\' !in v }

  lemma {:induction false} NothingToReplace(v: string, c: char, with: string)
    requires |with| == 2
    ensures |ReplaceAll(v, c, with)| >= |v|
    ensures c in v <==> |ReplaceAll(v, c, with)| > |v|
    ensures c !in v ==> ReplaceAll(v, c, with) == v
    ensures forall d | d in v && d != c :: d in ReplaceAll(v, c, with)
  {
    if v != "" {
      NothingToReplace(v[1..], c, with);
      assert v == [v[0]] + v[1..];
    }
  }

  /** Escaping makes an element longer exactly if it has a quote or a backslash. */
  lemma EscapingLengthens(v: string)
    ensures |Escaped(v)| >= |v| && (Plain(v) <==> |Escaped(v)| == |v|) && (Plain(v) ==> Escaped(v) == v)
  {
    NothingToReplace(v, '\\', "\\\\");
    NothingToReplace(ReplaceAll(v, '\\', "\\\\"), '"', "\\\"");
  }

  lemma {:induction false} InsideQuotes(body: string, rest: string, cur: string)
    requires '"' !in body
    ensures Elements(body + rest, cur, true) == Elements(rest, cur + body, true)
  {
    if body == "" {
      assert body + rest == rest && cur + body == cur;
    } else {
      assert (body + rest)[1..] == body[1..] + rest && cur + [body[0]] + body[1..] == cur + body;
      InsideQuotes(body[1..], rest, cur + [body[0]]);
    }
  }

  lemma {:induction false} OutsideQuotes(body: string, rest: string, cur: string)
    requires '"' !in body && ',' !in body
    ensures Elements(body + rest, cur, false) == Elements(rest, cur + body, false)
  {
    if body == "" {
      assert body + rest == rest && cur + body == cur;
    } else {
      assert (body + rest)[1..] == body[1..] + rest && cur + [body[0]] + body[1..] == cur + body;
      OutsideQuotes(body[1..], rest, cur + [body[0]]);
    }
  }

  lemma QuotedElement(v: string, rest: string)
    requires Plain(v)
    ensures Elements(Quoted(v) + rest, "", false) == Elements(rest, Quoted(v), false)
  {
    EscapingLengthens(v);
    var tail := "\"" + rest;
    assert Quoted(v) + rest == "\"" + (v + tail) && (Quoted(v) + rest)[1..] == v + tail;
    InsideQuotes(v, tail, "\"");
    assert tail[1..] == rest && "\"" + v + "\"" == Quoted(v) && "" + ['"'] == "\"";
  }

  /** How an element may stand in the text: quoted, or bare if that can be told apart. */
  datatype Style = InQuotes | Bare

  predicate Fits(v: string, style: Style) {
    if style.InQuotes? then Plain(v) else v != "" && ',' !in v && '"' !in v
  }

  function Shown(v: string, style: Style): string { if style.InQuotes? then Quoted(v) else v }

  lemma ShownElement(v: string, style: Style, rest: string)
    requires Fits(v, style)
    ensures Elements(Shown(v, style) + rest, "", false) == Elements(rest, Shown(v, style), false)
    ensures Unquote(Shown(v, style)) == v && Shown(v, style) != ""
  {
    if style.InQuotes? {
      QuotedElement(v, rest);
      EscapingLengthens(v);
    } else {
      OutsideQuotes(v, rest, "");
      assert "" + v == v;
      assert v[0] in v;
    }
  }

  function AllShown(values: seq<string>, styles: seq<Style>): seq<string>
    requires |values| == |styles|
  {
    seq(|values|, i requires 0 <= i < |values| => Shown(values[i], styles[i]))
  }

  lemma {:induction false} ElementsOfShown(values: seq<string>, styles: seq<Style>)
    requires |values| == |styles| > 0 && forall i | 0 <= i < |values| :: Fits(values[i], styles[i])
    ensures Elements(Joined(AllShown(values, styles)), "", false) == values
    decreases |values|
  {
    var parts, first := AllShown(values, styles), Shown(values[0], styles[0]);
    assert Fits(values[0], styles[0]);
    if |values| == 1 {
      ShownElement(values[0], styles[0], "");
      assert Joined(parts) == first + "";
    } else {
      var rest := Joined(AllShown(values[1..], styles[1..]));
      assert parts[1..] == AllShown(values[1..], styles[1..]);
      ShownElement(values[0], styles[0], "," + rest);
      assert Joined(parts) == first + ("," + rest) && ("," + rest)[1..] == rest;
      ElementsOfShown(values[1..], styles[1..]);
      assert [values[0]] + values[1..] == values;
    }
  }

  /** A non-empty list is recovered, with any mixture of quoted and bare elements. */
  lemma MixedRoundTrip(values: seq<string>, styles: seq<Style>)
    requires |values| == |styles| > 0 && forall i | 0 <= i < |values| :: Fits(values[i], styles[i])
    ensures Parsed("{" + Joined(AllShown(values, styles)) + "}") == values
  {
    var inner := Joined(AllShown(values, styles));
    assert ("{" + inner + "}")[1..|"{" + inner + "}"| - 1] == inner;
    ElementsOfShown(values, styles);
  }

  // ---- where the way back fails ----

  function Size(parts: seq<string>): nat { if parts == [] then 0 else |parts[0]| + Size(parts[1..]) }

  /** The parser drops at most two quotes an element and one comma between elements. */
  lemma {:induction false} LittleIsDropped(s: string, cur: string, inQuotes: bool)
    requires if s == "" then cur != "" else s[|s| - 1] == '"'
    ensures var r := Elements(s, cur, inQuotes); Size(r) + 3 * |r| >= |s| + |cur| + 1
    decreases s
  {
    if s != "" {
      if s[0] == ',' && !inQuotes {
        LittleIsDropped(s[1..], "", false);
        var rest := Elements(s[1..], "", false);
        assert ([Unquote(cur)] + rest)[1..] == rest;
      } else {
        LittleIsDropped(s[1..], cur + [s[0]], if s[0] == '"' then !inQuotes else inQuotes);
      }
    } else {
      assert Size([Unquote(cur)]) == |Unquote(cur)|;
    }
  }

  lemma {:induction false} SizeOfQuoted(values: seq<string>)
    requires values != []
    ensures var text := Joined(AllQuoted(values));
      && |text| + 1 >= Size(values) + 3 * |values|
      && text != "" && text[|text| - 1] == '"'
      && (|text| + 1 == Size(values) + 3 * |values| ==> forall i | 0 <= i < |values| :: Plain(values[i]))
    decreases |values|
  {
    EscapingLengthens(values[0]);
    var parts := AllQuoted(values);
    if |values| == 1 {
      assert values[1..] == [];
    } else {
      assert parts[1..] == AllQuoted(values[1..]);
      SizeOfQuoted(values[1..]);
      forall i | 0 <= i < |values| && |Joined(parts)| + 1 == Size(values) + 3 * |values|
        ensures Plain(values[i])
      {
        assert i > 0 ==> values[i] == values[1..][i - 1];
      }
    }
  }

  /**
    The printer's text of a non-empty list is read back as that list exactly if no element has a quote
    or a backslash: the printer escapes them, and the parser does not undo it.
   */
  lemma PrintedRoundTrip(values: seq<string>)
    requires values != []
    ensures Parsed("{" + Joined(AllQuoted(values)) + "}") == values
      <==> forall i | 0 <= i < |values| :: Plain(values[i])
  {
    var inner := Joined(AllQuoted(values));
    assert ("{" + inner + "}")[1..|"{" + inner + "}"| - 1] == inner;
    if forall i | 0 <= i < |values| :: Plain(values[i]) {
      var styles := seq(|values|, i => InQuotes);
      assert AllShown(values, styles) == AllQuoted(values);
      MixedRoundTrip(values, styles);
    } else {
      SizeOfQuoted(values);
      LittleIsDropped(inner, "", false);
    }
  }
}
