/**
 * The pretty printer of JSON values: a printer object with a mutable indentation against a
 * printer that passes the indentation down.
 */
module JsonPretty {
  import opened Wrappers

  /** A parsed JSON value; numbers, booleans and null print by their text. */
  datatype Json =
    | Text(text: string)
    | Plain(literal: string)
    | Array(items: seq<Json>)
    | Object(fields: seq<(string, Json)>)

  datatype Colour = Gray | MagentaBright | Green | Cyan

  /** Terminal colouring, left open. */
  type Paint = (Colour, string) -> string

  const STEP: string := "    "

  function Join(parts: seq<string>, separator: string): string {
    if parts == [] then ""
    else if |parts| == 1 then parts[0]
    else Join(parts[..|parts| - 1], separator) + separator + parts[|parts| - 1]
  }

  /** The pure printer: `indent` is what stands in front of the closing bracket. */
  function Pretty(paint: Paint, indent: string, v: Json): string
    decreases v
  {
    match v
    case Text(s) => paint(Green, "\"" + s + "\"")
    case Plain(s) => paint(Cyan, s)
    case Array(items) =>
      var inner := indent + STEP;
      paint(Gray, "[") + "\n"
        + Join(seq(|items|, i requires 0 <= i < |items| => inner + Pretty(paint, inner, items[i])), ",\n")
        + "\n" + indent + paint(Gray, "]")
    case Object(fields) =>
      var inner := indent + STEP;
      paint(Gray, "{") + "\n"
        + Join(seq(|fields|, i requires 0 <= i < |fields| =>
                 inner + paint(MagentaBright, fields[i].0 + ": " + Pretty(paint, inner, fields[i].1))), ",\n")
        + "\n" + indent + paint(Gray, "}")
  }

  // ---------------------------------------------------------------- joining

  /** Where part `i` begins. */
  function Offset(parts: seq<string>, separator: string, i: nat): nat
    requires i <= |parts|
  {
    if i == 0 then 0 else Offset(parts, separator, i - 1) + |parts[i - 1]| + |separator|
  }

  lemma {:induction false} OffsetOfPrefix(parts: seq<string>, separator: string, n: nat, i: nat)
    requires i <= n <= |parts|
    ensures Offset(parts[..n], separator, i) == Offset(parts, separator, i)
    ensures Offset(parts, separator, i) <= Offset(parts, separator, n)
    decreases n, i
  {
    if i == 0 {
    } else {
      OffsetOfPrefix(parts, separator, n, i - 1);
    }
    if i < n {
      OffsetOfPrefix(parts, separator, n - 1, i);
    }
  }

  /** The joined text is as long as its parts and the separators between them. */
  lemma {:induction false} JoinLength(parts: seq<string>, separator: string)
    requires parts != []
    ensures |Join(parts, separator)| == Offset(parts, separator, |parts|) - |separator|
    decreases |parts|
  {
    if |parts| == 1 {
      assert Offset(parts, separator, 0) == 0;
    } else {
      var last := |parts| - 1;
      JoinLength(parts[..last], separator);
      OffsetOfPrefix(parts, separator, last, last);
    }
  }

  /** What stands in a text stands there also when more is appended. */
  lemma SliceOfLonger(text: string, more: string, lo: nat, hi: nat)
    requires lo <= hi <= |text|
    ensures (text + more)[lo..hi] == text[lo..hi]
  {
  }

  lemma JoinHoldsLast(parts: seq<string>, separator: string)
    requires |parts| > 1
    ensures var text, at := Join(parts, separator), Offset(parts, separator, |parts| - 1);
            && |separator| <= at && at + |parts[|parts| - 1]| == |text|
            && text[at..] == parts[|parts| - 1] && text[at - |separator|..at] == separator
  {
    var last := |parts| - 1;
    var front := Join(parts[..last], separator);
    JoinLength(parts[..last], separator);
    OffsetOfPrefix(parts, separator, last, last);
    assert Join(parts, separator) == front + separator + parts[last];
    assert Offset(parts, separator, last) == |front| + |separator|;
  }

  /** Every part stands at its offset, with the separator between neighbours. */
  lemma {:induction false} JoinHolds(parts: seq<string>, separator: string, i: nat)
    requires i < |parts|
    ensures var text, at := Join(parts, separator), Offset(parts, separator, i);
            && at + |parts[i]| <= |text| && text[at..at + |parts[i]|] == parts[i]
            && (i > 0 ==> |separator| <= at && text[at - |separator|..at] == separator)
    decreases |parts|
  {
    var last := |parts| - 1;
    if last == 0 {
      assert Offset(parts, separator, 0) == 0 && Join(parts, separator) == parts[0];
    } else if i == last {
      JoinHoldsLast(parts, separator);
    } else {
      var front, at := Join(parts[..last], separator), Offset(parts, separator, i);
      JoinHolds(parts[..last], separator, i);
      OffsetOfPrefix(parts, separator, last, i);
      assert Join(parts, separator) == front + (separator + parts[last]);
      SliceOfLonger(front, separator + parts[last], at, at + |parts[i]|);
      if i > 0 {
        SliceOfLonger(front, separator + parts[last], at - |separator|, at);
      }
    }
  }

  lemma {:induction false} JoinCons(part: string, parts: seq<string>, separator: string)
    requires parts != []
    ensures Join([part] + parts, separator) == part + separator + Join(parts, separator)
    decreases |parts|
  {
    var all := [part] + parts;
    if |parts| == 1 {
      assert all[..1] == [part];
    } else {
      assert all[..|all| - 1] == [part] + parts[..|parts| - 1];
      JoinCons(part, parts[..|parts| - 1], separator);
    }
  }

  // ---------------------------------------------------------------- reading a printed value back

  /** No colouring. */
  const PLAIN: Paint := (colour: Colour, s: string) => s

  function Blanks(n: nat): (s: string)
    ensures |s| == n
  {
    seq(n, i => ' ')
  }

  predicate StartsWith(text: string, prefix: string) {
    |prefix| <= |text| && text[..|prefix|] == prefix
  }

  /** Up to the first character of the given ones. */
  function Until(text: string, stops: string): (head: string)
    ensures |head| <= |text| && text[..|head|] == head
    ensures |head| < |text| ==> text[|head|] in stops
    ensures forall i :: 0 <= i < |head| ==> head[i] !in stops
  {
    if text == "" || text[0] in stops then "" else [text[0]] + Until(text[1..], stops)
  }

  /** A reader of the layout: two lines of brackets around one indented line for each item, or
      around an empty line. */
  function Read(n: nat, text: string): (r: Option<(Json, string)>)
    ensures r.Some? ==> |r.value.1| < |text|
    decreases |text|, 1
  {
    if text == "" then None
    else if text[0] == '[' then
      var inside := ReadOpening(text, "[\n");
      if inside.None? then None
      else if StartsWith(inside.value, "\n") then
        var rest := ReadOpening(inside.value, "\n" + Blanks(n) + "]");
        if rest.None? then None else Some((Array([]), rest.value))
      else
        var items := ReadItems(n, inside.value);
        if items.None? then None else
        var rest := ReadOpening(items.value.1, "\n" + Blanks(n) + "]");
        if rest.None? then None else Some((Array(items.value.0), rest.value))
    else if text[0] == '{' then
      var inside := ReadOpening(text, "{\n");
      if inside.None? then None
      else if StartsWith(inside.value, "\n") then
        var rest := ReadOpening(inside.value, "\n" + Blanks(n) + "}");
        if rest.None? then None else Some((Object([]), rest.value))
      else
        var fields := ReadFields(n, inside.value);
        if fields.None? then None else
        var rest := ReadOpening(fields.value.1, "\n" + Blanks(n) + "}");
        if rest.None? then None else Some((Object(fields.value.0), rest.value))
    else if text[0] == '"' then
      var s := Until(text[1..], "\"");
      if |s| + 1 < |text| then Some((Text(s), text[|s| + 2..])) else None
    else
      var s := Until(text, ",\n");
      if s == "" then None else Some((Plain(s), text[|s|..]))
  }

  function ReadOpening(text: string, opening: string): (r: Option<string>)
    ensures r.Some? ==> |r.value| + |opening| == |text|
  {
    if StartsWith(text, opening) then Some(text[|opening|..]) else None
  }

  function ReadItems(n: nat, text: string): (r: Option<(seq<Json>, string)>)
    ensures r.Some? ==> |r.value.1| < |text|
    decreases |text|, 0
  {
    var line := ReadOpening(text, Blanks(n + 4));
    if line.None? then None else
    var first := Read(n + 4, line.value);
    if first.None? then None
    else if StartsWith(first.value.1, ",\n") then
      var more := ReadItems(n, first.value.1[2..]);
      if more.None? then None else Some(([first.value.0] + more.value.0, more.value.1))
    else Some(([first.value.0], first.value.1))
  }

  /** The blanks in front of a field, its key, and the colon behind that. */
  function ReadLabel(n: nat, text: string): (r: Option<(string, string)>)
    ensures r.Some? ==> |r.value.1| < |text|
  {
    var line := ReadOpening(text, Blanks(n + 4));
    if line.None? then None else
    var key := Until(line.value, ":");
    var after := ReadOpening(line.value, key + ": ");
    if after.None? then None else Some((key, after.value))
  }

  function ReadFields(n: nat, text: string): (r: Option<(seq<(string, Json)>, string)>)
    ensures r.Some? ==> |r.value.1| < |text|
    decreases |text|, 0
  {
    var field := ReadLabel(n, text);
    if field.None? then None else
    var first := Read(n + 4, field.value.1);
    if first.None? then None
    else if StartsWith(first.value.1, ",\n") then
      var more := ReadFields(n, first.value.1[2..]);
      if more.None? then None else Some(([(field.value.0, first.value.0)] + more.value.0, more.value.1))
    else Some(([(field.value.0, first.value.0)], first.value.1))
  }

  ghost predicate Free(s: string, chars: string) {
    forall i :: 0 <= i < |s| ==> s[i] !in chars
  }

  /** The printer escapes nothing, so what it prints is unambiguous when strings hold no quote,
      keys no colon, and literals are those of JSON. */
  ghost predicate Clean(v: Json) {
    match v
    case Text(s) => Free(s, "\"")
    case Plain(s) => s != "" && Free(s, ",\n") && s[0] !in "[{\""
    case Array(items) => forall i :: 0 <= i < |items| ==> Clean(items[i])
    case Object(fields) => forall i :: 0 <= i < |fields| ==> Free(fields[i].0, ":") && Clean(fields[i].1)
  }

  /** What may follow a value: the end, a comma or a line break. */
  predicate Ends(rest: string) {
    rest == "" || rest[0] == ',' || rest[0] == '\n'
  }

  lemma {:induction false} UntilStop(s: string, rest: string, stops: string)
    requires Free(s, stops) && (rest == "" || rest[0] in stops)
    ensures Until(s + rest, stops) == s
    decreases |s|
  {
    if s == "" {
      assert s + rest == rest;
    } else {
      assert (s + rest)[1..] == s[1..] + rest;
      UntilStop(s[1..], rest, stops);
    }
  }

  lemma Opening(opening: string, rest: string)
    ensures ReadOpening(opening + rest, opening) == Some(rest)
  {
    assert (opening + rest)[..|opening|] == opening;
  }

  /** The text reads as the value, whatever may follow it. */
  ghost predicate Spells(n: nat, text: string, v: Json) {
    forall rest: string :: Ends(rest) ==> Read(n, text + rest) == Some((v, rest))
  }

  lemma TextSpelled(n: nat, s: string)
    requires Free(s, "\"")
    ensures Spells(n, "\"" + s + "\"", Text(s))
  {
    forall rest: string | Ends(rest) ensures Read(n, "\"" + s + "\"" + rest) == Some((Text(s), rest)) {
      var text := "\"" + s + "\"" + rest;
      assert text[1..] == s + ("\"" + rest);
      UntilStop(s, "\"" + rest, "\"");
      assert text[|s| + 2..] == rest;
    }
  }

  lemma PlainSpelled(n: nat, s: string)
    requires s != "" && Free(s, ",\n") && s[0] !in "[{\""
    ensures Spells(n, s, Plain(s))
  {
    forall rest: string | Ends(rest) ensures Read(n, s + rest) == Some((Plain(s), rest)) {
      UntilStop(s, rest, ",\n");
      assert (s + rest)[|s|..] == rest;
    }
  }

  /** Each text on a line of its own, indented. */
  function Lined(n: nat, texts: seq<string>): (lines: seq<string>)
    ensures |lines| == |texts| && forall i :: 0 <= i < |texts| ==> lines[i] == Blanks(n + 4) + texts[i]
  {
    seq(|texts|, i requires 0 <= i < |texts| => Blanks(n + 4) + texts[i])
  }

  /** What stands behind the first of the joined lines. */
  function Behind(n: nat, texts: seq<string>, rest: string): string
    requires texts != []
  {
    if |texts| == 1 then rest else ",\n" + (Join(Lined(n, texts[1..]), ",\n") + rest)
  }

  lemma Regroup(blanks: string, text: string, joined: string, rest: string)
    ensures ((blanks + text) + ",\n" + joined) + rest == blanks + (text + (",\n" + (joined + rest)))
    ensures (blanks + text) + rest == blanks + (text + rest)
  {
  }

  lemma LinedCons(n: nat, texts: seq<string>, rest: string)
    requires texts != []
    ensures Join(Lined(n, texts), ",\n") + rest == Blanks(n + 4) + (texts[0] + Behind(n, texts, rest))
  {
    var line, more := Blanks(n + 4) + texts[0], Lined(n, texts[1..]);
    Regroup(Blanks(n + 4), texts[0], Join(more, ",\n"), rest);
    assert Lined(n, texts) == [line] + more;
    if |texts| == 1 {
      assert Join([line], ",\n") == line;
    } else {
      JoinCons(line, more, ",\n");
    }
  }

  lemma BehindLine(n: nat, texts: seq<string>, rest: string)
    requires texts != [] && rest != "" && rest[0] == '\n'
    ensures Ends(Behind(n, texts, rest))
    ensures |texts| == 1 ==> !StartsWith(Behind(n, texts, rest), ",\n")
    ensures |texts| > 1 ==>
              && StartsWith(Behind(n, texts, rest), ",\n")
              && Behind(n, texts, rest)[2..] == Join(Lined(n, texts[1..]), ",\n") + rest
  {
    if |texts| > 1 {
      Opening(",\n", Join(Lined(n, texts[1..]), ",\n") + rest);
    }
  }

  lemma LinedOpens(n: nat, texts: seq<string>, rest: string)
    requires texts != []
    ensures var text := Join(Lined(n, texts), ",\n") + rest;
            && ReadOpening(text, Blanks(n + 4)) == Some(texts[0] + Behind(n, texts, rest))
            && !StartsWith(text, "\n")
  {
    var text := Join(Lined(n, texts), ",\n") + rest;
    LinedCons(n, texts, rest);
    Opening(Blanks(n + 4), texts[0] + Behind(n, texts, rest));
    assert text[0] == Blanks(n + 4)[0] == ' ';
  }

  /** One line of a list: the last one, or one before others. */
  lemma ItemLine(n: nat, text: string, line: string, v: Json, behind: string, vs: seq<Json>, rest: string)
    requires ReadOpening(text, Blanks(n + 4)) == Some(line) && Read(n + 4, line) == Some((v, behind))
    requires if StartsWith(behind, ",\n") then ReadItems(n, behind[2..]) == Some((vs, rest))
             else vs == [] && rest == behind
    ensures ReadItems(n, text) == Some(([v] + vs, rest))
  {
    if !StartsWith(behind, ",\n") {
      assert [v] + vs == [v];
    }
  }

  /** The first line of a list, read. */
  lemma FirstItem(n: nat, texts: seq<string>, v: Json, text: string, rest: string)
    returns (line: string, behind: string)
    requires texts != [] && Spells(n + 4, texts[0], v) && text == Join(Lined(n, texts), ",\n") + rest
    requires rest != "" && rest[0] == '\n'
    ensures ReadOpening(text, Blanks(n + 4)) == Some(line) && Read(n + 4, line) == Some((v, behind))
    ensures |texts| == 1 ==> behind == rest && !StartsWith(behind, ",\n")
    ensures |texts| > 1 ==> StartsWith(behind, ",\n") && behind[2..] == Join(Lined(n, texts[1..]), ",\n") + rest
  {
    behind := Behind(n, texts, rest);
    line := texts[0] + behind;
    LinedOpens(n, texts, rest);
    BehindLine(n, texts, rest);
  }

  lemma {:induction false} ItemsSpelled(n: nat, texts: seq<string>, vs: seq<Json>, text: string, rest: string)
    requires |texts| == |vs| > 0 && forall i :: 0 <= i < |vs| ==> Spells(n + 4, texts[i], vs[i])
    requires rest != "" && rest[0] == '\n' && text == Join(Lined(n, texts), ",\n") + rest
    ensures ReadItems(n, text) == Some((vs, rest))
    decreases |vs|
  {
    var line, behind := FirstItem(n, texts, vs[0], text, rest);
    if |vs| > 1 {
      ItemsSpelled(n, texts[1..], vs[1..], behind[2..], rest);
    }
    ItemLine(n, text, line, vs[0], behind, vs[1..], rest);
    assert vs == [vs[0]] + vs[1..];
  }

  /** Keys and values as they stand behind the blanks. */
  function Labelled(keys: seq<string>, texts: seq<string>): (lines: seq<string>)
    requires |keys| == |texts|
    ensures |lines| == |texts| && forall i :: 0 <= i < |texts| ==> lines[i] == keys[i] + ": " + texts[i]
  {
    seq(|texts|, i requires 0 <= i < |texts| => keys[i] + ": " + texts[i])
  }

  lemma LabelSpelled(n: nat, key: string, behind: string)
    requires Free(key, ":")
    ensures ReadLabel(n, Blanks(n + 4) + (key + ": " + behind)) == Some((key, behind))
  {
    var line := key + ": " + behind;
    Opening(Blanks(n + 4), line);
    assert line == key + (": " + behind);
    UntilStop(key, ": " + behind, ":");
    Opening(key + ": ", behind);
  }

  function Paired(keys: seq<string>, vs: seq<Json>): (fields: seq<(string, Json)>)
    requires |keys| == |vs|
    ensures |fields| == |vs| && forall i :: 0 <= i < |vs| ==> fields[i] == (keys[i], vs[i])
  {
    seq(|vs|, i requires 0 <= i < |vs| => (keys[i], vs[i]))
  }

  lemma FieldLine(
      n: nat, text: string, key: string, line: string, v: Json, behind: string,
      fields: seq<(string, Json)>, rest: string)
    requires ReadLabel(n, text) == Some((key, line)) && Read(n + 4, line) == Some((v, behind))
    requires if StartsWith(behind, ",\n") then ReadFields(n, behind[2..]) == Some((fields, rest))
             else fields == [] && rest == behind
    ensures ReadFields(n, text) == Some(([(key, v)] + fields, rest))
  {
    if !StartsWith(behind, ",\n") {
      assert [(key, v)] + fields == [(key, v)];
    }
  }

  lemma LabelOpens(n: nat, keys: seq<string>, texts: seq<string>, rest: string)
    requires |keys| == |texts| > 0 && Free(keys[0], ":")
    ensures var lines := Labelled(keys, texts);
            ReadLabel(n, Join(Lined(n, lines), ",\n") + rest) == Some((keys[0], texts[0] + Behind(n, lines, rest)))
  {
    var lines := Labelled(keys, texts);
    var behind := Behind(n, lines, rest);
    LinedCons(n, lines, rest);
    assert lines[0] + behind == keys[0] + ": " + (texts[0] + behind);
    LabelSpelled(n, keys[0], texts[0] + behind);
  }

  lemma FirstField(n: nat, keys: seq<string>, texts: seq<string>, v: Json, text: string, rest: string)
    returns (line: string, behind: string)
    requires |keys| == |texts| > 0 && Free(keys[0], ":") && Spells(n + 4, texts[0], v)
    requires text == Join(Lined(n, Labelled(keys, texts)), ",\n") + rest && rest != "" && rest[0] == '\n'
    ensures ReadLabel(n, text) == Some((keys[0], line)) && Read(n + 4, line) == Some((v, behind))
    ensures |texts| == 1 ==> behind == rest && !StartsWith(behind, ",\n")
    ensures |texts| > 1 ==>
              && StartsWith(behind, ",\n")
              && behind[2..] == Join(Lined(n, Labelled(keys[1..], texts[1..])), ",\n") + rest
  {
    var lines := Labelled(keys, texts);
    assert lines[1..] == Labelled(keys[1..], texts[1..]);
    behind := Behind(n, lines, rest);
    line := texts[0] + behind;
    LabelOpens(n, keys, texts, rest);
    BehindLine(n, lines, rest);
  }

  /** Keys without colon, and texts that read as the values. */
  ghost predicate FieldTexts(n: nat, keys: seq<string>, texts: seq<string>, vs: seq<Json>) {
    && |keys| == |texts| == |vs|
    && (forall i :: 0 <= i < |keys| ==> Free(keys[i], ":"))
    && (forall i :: 0 <= i < |vs| ==> Spells(n + 4, texts[i], vs[i]))
  }

  lemma FieldTextsRest(n: nat, keys: seq<string>, texts: seq<string>, vs: seq<Json>)
    requires FieldTexts(n, keys, texts, vs) && vs != []
    ensures FieldTexts(n, keys[1..], texts[1..], vs[1..])
    ensures Free(keys[0], ":") && Spells(n + 4, texts[0], vs[0])
  {
    assert forall i :: 0 <= i < |vs| - 1 ==>
             keys[1..][i] == keys[i + 1] && texts[1..][i] == texts[i + 1] && vs[1..][i] == vs[i + 1];
  }

  lemma {:induction false} FieldsSpelled(
      n: nat, keys: seq<string>, texts: seq<string>, vs: seq<Json>, text: string, rest: string)
    requires FieldTexts(n, keys, texts, vs) && vs != [] && rest != "" && rest[0] == '\n'
    requires text == Join(Lined(n, Labelled(keys, texts)), ",\n") + rest
    ensures ReadFields(n, text) == Some((Paired(keys, vs), rest))
    decreases |vs|
  {
    FieldTextsRest(n, keys, texts, vs);
    var line, behind := FirstField(n, keys, texts, vs[0], text, rest);
    var fields := PairedCons(keys, vs);
    if |vs| > 1 {
      FieldsSpelled(n, keys[1..], texts[1..], vs[1..], behind[2..], rest);
    }
    FieldLine(n, text, keys[0], line, vs[0], behind, fields, rest);
  }

  lemma PairedCons(keys: seq<string>, vs: seq<Json>) returns (fields: seq<(string, Json)>)
    requires |keys| == |vs| > 0
    ensures fields == Paired(keys[1..], vs[1..]) && (|vs| == 1 ==> fields == [])
    ensures Paired(keys, vs) == [(keys[0], vs[0])] + fields
  {
    fields := Paired(keys[1..], vs[1..]);
  }

  lemma Nest(opening: string, inside: string, closing: string, rest: string)
    ensures opening + inside + closing + rest == opening + (inside + (closing + rest))
    ensures inside == "" ==> inside + (closing + rest) == closing + rest
  {
  }

  /** A bracketed value, given how its inside reads. */
  lemma Bracketed(n: nat, vs: seq<Json>, text: string, inside: string, tail: string, rest: string)
    requires ReadOpening(text, "[\n") == Some(inside) && ReadOpening(tail, "\n" + Blanks(n) + "]") == Some(rest)
    requires if vs == [] then inside == tail && StartsWith(inside, "\n")
             else !StartsWith(inside, "\n") && ReadItems(n, inside) == Some((vs, tail))
    ensures Read(n, text) == Some((Array(vs), rest))
  {
    assert text[0] == text[..2][0] == '[';
  }

  lemma Braced(n: nat, fields: seq<(string, Json)>, text: string, inside: string, tail: string, rest: string)
    requires ReadOpening(text, "{\n") == Some(inside) && ReadOpening(tail, "\n" + Blanks(n) + "}") == Some(rest)
    requires if fields == [] then inside == tail && StartsWith(inside, "\n")
             else !StartsWith(inside, "\n") && ReadFields(n, inside) == Some((fields, tail))
    ensures Read(n, text) == Some((Object(fields), rest))
  {
    assert text[0] == text[..2][0] == '{';
  }

  lemma ArraySpelled(n: nat, texts: seq<string>, vs: seq<Json>)
    requires |texts| == |vs| && forall i :: 0 <= i < |vs| ==> Spells(n + 4, texts[i], vs[i])
    ensures Spells(n, "[\n" + Join(Lined(n, texts), ",\n") + ("\n" + Blanks(n) + "]"), Array(vs))
  {
    var inside, closing := Join(Lined(n, texts), ",\n"), "\n" + Blanks(n) + "]";
    forall rest: string | Ends(rest) ensures Read(n, "[\n" + inside + closing + rest) == Some((Array(vs), rest)) {
      Nest("[\n", inside, closing, rest);
      Opening("[\n", inside + (closing + rest));
      Opening(closing, rest);
      if vs != [] {
        ItemsSpelled(n, texts, vs, inside + (closing + rest), closing + rest);
        LinedOpens(n, texts, closing + rest);
      }
      Bracketed(n, vs, "[\n" + inside + closing + rest, inside + (closing + rest), closing + rest, rest);
    }
  }

  lemma ObjectSpelled(n: nat, keys: seq<string>, texts: seq<string>, vs: seq<Json>)
    requires FieldTexts(n, keys, texts, vs)
    ensures Spells(n, "{\n" + Join(Lined(n, Labelled(keys, texts)), ",\n") + ("\n" + Blanks(n) + "}"),
                   Object(Paired(keys, vs)))
  {
    var inside, closing := Join(Lined(n, Labelled(keys, texts)), ",\n"), "\n" + Blanks(n) + "}";
    forall rest: string | Ends(rest)
      ensures Read(n, "{\n" + inside + closing + rest) == Some((Object(Paired(keys, vs)), rest))
    {
      Nest("{\n", inside, closing, rest);
      Opening("{\n", inside + (closing + rest));
      Opening(closing, rest);
      if vs != [] {
        FieldsSpelled(n, keys, texts, vs, inside + (closing + rest), closing + rest);
        LinedOpens(n, Labelled(keys, texts), closing + rest);
      }
      Braced(n, Paired(keys, vs), "{\n" + inside + closing + rest, inside + (closing + rest), closing + rest, rest);
    }
  }

  /** What the items, or the field values, print as. */
  function Printed(n: nat, vs: seq<Json>): (texts: seq<string>)
    ensures |texts| == |vs| && forall i :: 0 <= i < |vs| ==> texts[i] == Pretty(PLAIN, Blanks(n), vs[i])
  {
    seq(|vs|, i requires 0 <= i < |vs| => Pretty(PLAIN, Blanks(n), vs[i]))
  }

  lemma PrettyArray(n: nat, items: seq<Json>)
    ensures Pretty(PLAIN, Blanks(n), Array(items))
         == "[\n" + Join(Lined(n, Printed(n + 4, items)), ",\n") + ("\n" + Blanks(n) + "]")
  {
    var inner := Blanks(n) + STEP;
    assert inner == Blanks(n + 4);
    assert seq(|items|, i requires 0 <= i < |items| => inner + Pretty(PLAIN, inner, items[i]))
        == Lined(n, Printed(n + 4, items));
  }

  lemma PrettyObject(n: nat, keys: seq<string>, vs: seq<Json>)
    requires |keys| == |vs|
    ensures Pretty(PLAIN, Blanks(n), Object(Paired(keys, vs)))
         == "{\n" + Join(Lined(n, Labelled(keys, Printed(n + 4, vs))), ",\n") + ("\n" + Blanks(n) + "}")
  {
    var inner := Blanks(n) + STEP;
    var fields := Paired(keys, vs);
    assert inner == Blanks(n + 4);
    assert seq(|fields|, i requires 0 <= i < |fields| =>
                 inner + PLAIN(MagentaBright, fields[i].0 + ": " + Pretty(PLAIN, inner, fields[i].1)))
        == Lined(n, Labelled(keys, Printed(n + 4, vs)));
  }

  /** Reading what was printed gives the value back, and what followed it. */
  lemma {:induction false} ReadsBack(v: Json, n: nat)
    requires Clean(v)
    ensures Spells(n, Pretty(PLAIN, Blanks(n), v), v)
    decreases v
  {
    match v
    case Text(s) => TextSpelled(n, s);
    case Plain(s) => PlainSpelled(n, s);
    case Array(items) =>
      forall i | 0 <= i < |items| ensures Spells(n + 4, Printed(n + 4, items)[i], items[i]) {
        ReadsBack(items[i], n + 4);
      }
      ArraySpelled(n, Printed(n + 4, items), items);
      PrettyArray(n, items);
    case Object(fields) =>
      var keys: seq<string> := seq(|fields|, i requires 0 <= i < |fields| => fields[i].0);
      var vs: seq<Json> := seq(|fields|, i requires 0 <= i < |fields| => fields[i].1);
      assert fields == Paired(keys, vs);
      forall i | 0 <= i < |fields| ensures Spells(n + 4, Printed(n + 4, vs)[i], vs[i]) {
        ReadsBack(fields[i].1, n + 4);
      }
      ObjectSpelled(n, keys, Printed(n + 4, vs), vs);
      PrettyObject(n, keys, vs);
  }

  /** So two clean values print alike only if they are the same. */
  lemma PrettyIsInjective(v: Json, w: Json, n: nat)
    requires Clean(v) && Clean(w) && Pretty(PLAIN, Blanks(n), v) == Pretty(PLAIN, Blanks(n), w)
    ensures v == w
  {
    ReadsBack(v, n);
    ReadsBack(w, n);
    assert Ends("");
    var text := Pretty(PLAIN, Blanks(n), v);
    assert Read(n, text + "") == Some((v, "")) && Read(n, text + "") == Some((w, ""));
  }

  /** A quote inside a string is not escaped: one string can print like two. */
  lemma QuotesAreNotEscaped(n: nat, a: string, b: string)
    ensures var both := Text(a + "\",\n" + Blanks(n + 4) + "\"" + b);
            Pretty(PLAIN, Blanks(n), Array([both])) == Pretty(PLAIN, Blanks(n), Array([Text(a), Text(b)]))
  {
    var both := Text(a + "\",\n" + Blanks(n + 4) + "\"" + b);
    var first, second := "\"" + a + "\"", "\"" + b + "\"";
    var long := "\"" + both.text + "\"";
    assert Printed(n + 4, [both]) == [long] && Printed(n + 4, [Text(a), Text(b)]) == [first, second];
    PrettyArray(n, [both]);
    PrettyArray(n, [Text(a), Text(b)]);
    assert long == first + ",\n" + Blanks(n + 4) + second;
    TwoLinesAsOne(n, long, first, second);
  }

  lemma TwoLinesAsOne(n: nat, long: string, first: string, second: string)
    requires long == first + ",\n" + Blanks(n + 4) + second
    ensures Join(Lined(n, [long]), ",\n") == Join(Lined(n, [first, second]), ",\n")
  {
    var lines := Lined(n, [first, second]);
    assert lines[..1] == [lines[0]];
    assert Blanks(n + 4) + long == (Blanks(n + 4) + first) + ",\n" + (Blanks(n + 4) + second);
  }

  /** The printer as the command class has it. */
  class Printer {
    var ident: string
    const paint: Paint

    constructor (paint: Paint, ident: string)
      ensures this.paint == paint && this.ident == ident
    {
      this.paint := paint;
      this.ident := ident;
    }

    method Indented(line: string) returns (r: string)
      ensures r == ident + line
    {
      r := ident + line;
    }

    method Open(bracket: string) returns (r: string)
      modifies this
      ensures ident == old(ident) + STEP
      ensures r == paint(Gray, bracket) + "\n"
    {
      ident := ident + STEP;
      r := paint(Gray, bracket) + "\n";
    }

    /** `slice(0, -4)`: drop the last four characters, or all of fewer. */
    method Close(bracket: string) returns (r: string)
      modifies this
      ensures ident == if |old(ident)| < 4 then "" else old(ident)[..|old(ident)| - 4]
      ensures r == ident + paint(Gray, bracket)
    {
      ident := if |ident| < 4 then "" else ident[..|ident| - 4];
      r := Indented(paint(Gray, bracket));
    }

    method KeyVal(key: string, val: Json) returns (r: string)
      modifies this
      ensures r == old(ident) + paint(MagentaBright, key + ": " + Pretty(paint, old(ident), val))
      ensures ident == old(ident)
      decreases val, 2
    {
      var printed := Any(val);
      r := Indented(paint(MagentaBright, key + ": " + printed));
    }

    method Obj(v: Json) returns (r: string)
      requires v.Object?
      modifies this
      ensures r == Pretty(paint, old(ident), v)
      ensures ident == old(ident)
      decreases v, 0
    {
      var opening := Open("{");
      var inner := ident;
      var parts: seq<string> := [];
      for i := 0 to |v.fields|
        invariant ident == inner == old(ident) + STEP && |parts| == i
        invariant forall j :: 0 <= j < i ==>
                    parts[j] == inner + paint(MagentaBright, v.fields[j].0 + ": " + Pretty(paint, inner, v.fields[j].1))
      {
        var part := KeyVal(v.fields[i].0, v.fields[i].1);
        parts := parts + [part];
      }
      assert parts == seq(|v.fields|, i requires 0 <= i < |v.fields| =>
                            inner + paint(MagentaBright, v.fields[i].0 + ": " + Pretty(paint, inner, v.fields[i].1)));
      var closing := Close("}");
      r := opening + Join(parts, ",\n") + "\n" + closing;
    }

    method Arr(v: Json) returns (r: string)
      requires v.Array?
      modifies this
      ensures r == Pretty(paint, old(ident), v)
      ensures ident == old(ident)
      decreases v, 0
    {
      var opening := Open("[");
      var inner := ident;
      var parts: seq<string> := [];
      for i := 0 to |v.items|
        invariant ident == inner == old(ident) + STEP && |parts| == i
        invariant forall j :: 0 <= j < i ==> parts[j] == inner + Pretty(paint, inner, v.items[j])
      {
        var printed := Any(v.items[i]);
        var part := Indented(printed);
        parts := parts + [part];
      }
      assert parts == seq(|v.items|, i requires 0 <= i < |v.items| => inner + Pretty(paint, inner, v.items[i]));
      var closing := Close("]");
      r := opening + Join(parts, ",\n") + "\n" + closing;
    }

    /** Any value, any starting indentation: the same text as the pure printer, and the
        indentation is back where it was. */
    method Any(v: Json) returns (r: string)
      modifies this
      ensures r == Pretty(paint, old(ident), v)
      ensures v.Text? ==> r == paint(Green, "\"" + v.text + "\"")
      ensures v.Plain? ==> r == paint(Cyan, v.literal)
      ensures ident == old(ident)
      decreases v, 1
    {
      match v {
        case Array(_) => r := Arr(v);
        case Object(_) => r := Obj(v);
        case Text(s) => r := paint(Green, "\"" + s + "\"");
        case Plain(s) => r := paint(Cyan, s);
      }
    }
  }
}
