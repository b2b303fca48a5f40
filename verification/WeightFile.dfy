/**
 * The fee analysis: a line-driven parser of generated weight files and a linear evaluator,
 * against the saturating Rust expression that each parsed function stands for.
 */
module WeightFile {
  import opened Wrappers
  import opened Machine

  const READ_WEIGHT: nat := 25_000_000
  const WRITE_WEIGHT: nat := 100_000_000
  const EXTRINSIC_BASE_WEIGHT: nat := 125_000_000

  /** What the body patterns recognise on one line of a weight function. */
  datatype Term =
    | Nothing
    | Base(weight: nat)
    | Scaled(name: string, factor: nat)
    | Reads(count: nat)
    | ReadsScaled(name: string, factor: nat)
    | Writes(count: nat)
    | WritesScaled(name: string, factor: nat)

  /** One line as the parser sees it: a first word `impl` with its pallet, a first word `fn`
      with its name, a word `}`, and whatever the body patterns find. */
  datatype Line = Line(implPallet: Option<string>, fnName: Option<string>, closes: bool, term: Term)

  datatype Record = Record(
    baseWeight: nat,
    readsBase: nat, readsVars: seq<(string, nat)>,
    writesBase: nat, writesVars: seq<(string, nat)>,
    vars: seq<(string, nat)>)

  const EMPTY_RECORD: Record := Record(0, 0, [], 0, [], [])

  function Qualified(pallet: string, name: string): string { pallet + "::" + name }

  // ---------------------------------------------------------------- the parser

  /** The effect of one body line on the accumulators: unscaled values are overwritten, scaled
      ones appended. */
  function Accumulate(r: Record, t: Term): Record {
    match t
    case Nothing => r
    case Base(w) => r.(baseWeight := w)
    case Scaled(v, f) => r.(vars := r.vars + [(v, f)])
    case Reads(n) => r.(readsBase := n)
    case ReadsScaled(v, f) => r.(readsVars := r.readsVars + [(v, f)])
    case Writes(n) => r.(writesBase := n)
    case WritesScaled(v, f) => r.(writesVars := r.writesVars + [(v, f)])
  }

  datatype ParserState = ParserState(
    startReading: bool, readingFunc: bool, functionName: string, palletName: string,
    acc: Record, weights: map<string, Record>)

  const START: ParserState := ParserState(false, false, "", "", EMPTY_RECORD, map[])

  /** One turn of the line loop, tests in the source's order. */
  function Feed(s: ParserState, line: Line): ParserState {
    var s1 := match line.implPallet
      case Some(pallet) => s.(startReading := true, palletName := pallet)
      case None => s;
    var s2 := if s1.readingFunc && line.closes
      then s1.(readingFunc := false, weights := s1.weights[s1.functionName := s1.acc], acc := EMPTY_RECORD)
      else s1;
    var s3 := if s1.readingFunc then s2.(acc := Accumulate(s2.acc, line.term)) else s2;
    match line.fnName
    case Some(name) =>
      if s3.startReading then s3.(readingFunc := true, functionName := Qualified(s3.palletName, name)) else s3
    case None => s3
  }

  function FeedAll(s: ParserState, lines: seq<Line>): ParserState
    decreases |lines|
  {
    if lines == [] then s else FeedAll(Feed(s, lines[0]), lines[1..])
  }

  lemma {:induction false} FeedAllThen(s: ParserState, lines: seq<Line>, line: Line)
    ensures FeedAll(s, lines + [line]) == Feed(FeedAll(s, lines), line)
    decreases |lines|
  {
    if lines == [] {
      assert [line][1..] == [];
      assert FeedAll(s, lines + [line]) == FeedAll(Feed(s, line), []);
    } else {
      assert (lines + [line])[1..] == lines[1..] + [line];
      FeedAllThen(Feed(s, lines[0]), lines[1..], line);
    }
  }

  lemma {:induction false} FeedAllConcat(s: ParserState, first: seq<Line>, second: seq<Line>)
    ensures FeedAll(s, first + second) == FeedAll(FeedAll(s, first), second)
    decreases |first|
  {
    if first == [] {
      assert first + second == second;
    } else {
      assert (first + second)[1..] == first[1..] + second;
      FeedAllConcat(Feed(s, first[0]), first[1..], second);
    }
  }

  /** `parse_weights`: flags, accumulators and lists updated line by line. */
  method ParseWeights(lines: seq<Line>) returns (weights: map<string, Record>)
    ensures weights == FeedAll(START, lines).weights
  {
    weights := map[];
    var startReading, readingFunc := false, false;
    var functionName, palletName := "", "";
    var weight, dbReadsBase, dbWritesBase := 0, 0, 0;
    var dbReads: seq<(string, nat)>, dbWrites: seq<(string, nat)>, variables: seq<(string, nat)> := [], [], [];
    var i := 0;
    while i < |lines|
      invariant 0 <= i <= |lines|
      invariant FeedAll(START, lines[..i])
             == ParserState(startReading, readingFunc, functionName, palletName,
                            Record(weight, dbReadsBase, dbReads, dbWritesBase, dbWrites, variables), weights)
    {
      var line := lines[i];
      FeedAllThen(START, lines[..i], line);
      assert lines[..i + 1] == lines[..i] + [line];
      if line.implPallet.Some? {
        startReading := true;
        palletName := line.implPallet.value;
      }
      if readingFunc {
        if line.closes {
          readingFunc := false;
          weights := weights[functionName := Record(weight, dbReadsBase, dbReads, dbWritesBase, dbWrites, variables)];
          weight, dbReadsBase, dbWritesBase := 0, 0, 0;
          variables, dbReads, dbWrites := [], [], [];
        }
        match line.term {
          case Nothing =>
          case Base(w) => weight := w;
          case Scaled(v, f) => variables := variables + [(v, f)];
          case Reads(n) => dbReadsBase := n;
          case ReadsScaled(v, f) => dbReads := dbReads + [(v, f)];
          case Writes(n) => dbWritesBase := n;
          case WritesScaled(v, f) => dbWrites := dbWrites + [(v, f)];
        }
      }
      if startReading && line.fnName.Some? {
        readingFunc := true;
        functionName := Qualified(palletName, line.fnName.value);
      }
      i := i + 1;
    }
    assert lines[..i] == lines;
  }

  // ---------------------------------------------------------------- files as they are generated

  /** A weight file item by item: an `impl` header, one with type parameters, whose first word
      is then `impl<T:` and not `impl`, a line outside any function, or a whole function from
      its `fn` line to its closing brace. */
  datatype Item =
    | Header(pallet: string)
    | GenericHeader(pallet: string)
    | Outside(closes: bool, term: Term)
    | Function(name: string, body: seq<Term>)

  function BodyLine(t: Term): Line { Line(None, None, false, t) }

  function RenderBody(body: seq<Term>): (lines: seq<Line>)
    ensures |lines| == |body|
  {
    seq(|body|, i requires 0 <= i < |body| => BodyLine(body[i]))
  }

  function RenderItem(item: Item): seq<Line> {
    match item
    case Header(pallet) => [Line(Some(pallet), None, false, Nothing)]
    case GenericHeader(_) => [Line(None, None, false, Nothing)]
    case Outside(closes, term) => [Line(None, None, closes, term)]
    case Function(name, body) =>
      [Line(None, Some(name), false, Nothing)] + RenderBody(body) + [Line(None, None, true, Nothing)]
  }

  function Render(items: seq<Item>): seq<Line> {
    if items == [] then [] else Render(items[..|items| - 1]) + RenderItem(items[|items| - 1])
  }

  /** The record a body stands for on its own. */
  function RecordOf(body: seq<Term>): Record {
    if body == [] then EMPTY_RECORD else Accumulate(RecordOf(body[..|body| - 1]), body[|body| - 1])
  }

  /** The pallet named by the last header without type parameters, if any. */
  function CurrentPallet(items: seq<Item>): Option<string> {
    if items == [] then None
    else if items[|items| - 1].Header? then Some(items[|items| - 1].pallet)
    else CurrentPallet(items[..|items| - 1])
  }

  /** The table a file stands for: every function under a header, by qualified name, each from
      its own body alone; a later function of the same name replaces an earlier one. */
  function Table(items: seq<Item>): map<string, Record> {
    if items == [] then map[]
    else
      var before := items[..|items| - 1];
      var last := items[|items| - 1];
      if last.Function? && CurrentPallet(before).Some?
      then Table(before)[Qualified(CurrentPallet(before).value, last.name) := RecordOf(last.body)]
      else Table(before)
  }

  lemma {:induction false} FeedBody(s: ParserState, body: seq<Term>)
    requires s.readingFunc && s.acc == EMPTY_RECORD
    ensures FeedAll(s, RenderBody(body)) == s.(acc := RecordOf(body))
    decreases |body|
  {
    if body == [] {
    } else {
      var front, t := body[..|body| - 1], body[|body| - 1];
      FeedBody(s, front);
      assert RenderBody(body) == RenderBody(front) + [BodyLine(t)];
      FeedAllThen(s, RenderBody(front), BodyLine(t));
    }
  }

  lemma {:induction false} SkipBody(s: ParserState, body: seq<Term>)
    requires !s.readingFunc
    ensures FeedAll(s, RenderBody(body)) == s
    decreases |body|
  {
    if body == [] {
    } else {
      var front, t := body[..|body| - 1], body[|body| - 1];
      SkipBody(s, front);
      assert RenderBody(body) == RenderBody(front) + [BodyLine(t)];
      FeedAllThen(s, RenderBody(front), BodyLine(t));
    }
  }

  lemma FeedOne(s: ParserState, line: Line)
    ensures FeedAll(s, [line]) == Feed(s, line)
  {
    assert [line][1..] == [];
    assert FeedAll(s, [line]) == FeedAll(Feed(s, line), []);
  }

  lemma FeedFunction(s: ParserState, name: string, body: seq<Term>)
    requires !s.readingFunc && s.acc == EMPTY_RECORD
    ensures var t := FeedAll(s, RenderItem(Function(name, body)));
            && !t.readingFunc && t.acc == EMPTY_RECORD
            && t.startReading == s.startReading && t.palletName == s.palletName
            && t.weights
               == if s.startReading then s.weights[Qualified(s.palletName, name) := RecordOf(body)] else s.weights
  {
    var opening, closing := Line(None, Some(name), false, Nothing), Line(None, None, true, Nothing);
    FeedAllThen(s, [opening] + RenderBody(body), closing);
    FeedAllConcat(s, [opening], RenderBody(body));
    FeedOne(s, opening);
    var inside := Feed(s, opening);
    if s.startReading {
      FeedBody(inside, body);
    } else {
      SkipBody(inside, body);
    }
  }

  /** After any number of whole items the parser is between functions and has exactly the
      table of those items. */
  lemma {:induction false} ParserInvariant(items: seq<Item>)
    ensures var s := FeedAll(START, Render(items));
            && !s.readingFunc && s.acc == EMPTY_RECORD && s.weights == Table(items)
            && s.startReading == CurrentPallet(items).Some?
            && (s.startReading ==> s.palletName == CurrentPallet(items).value)
    decreases |items|
  {
    if items == [] {
    } else {
      var before, last := items[..|items| - 1], items[|items| - 1];
      ParserInvariant(before);
      var s := FeedAll(START, Render(before));
      FeedAllConcat(START, Render(before), RenderItem(last));
      match last
      case Header(pallet) => FeedOne(s, RenderItem(last)[0]);
      case GenericHeader(pallet) => FeedOne(s, RenderItem(last)[0]);
      case Outside(closes, term) => FeedOne(s, RenderItem(last)[0]);
      case Function(name, body) => FeedFunction(s, name, body);
    }
  }

  /** Parsing a generated file yields exactly its table, so no record depends on the body of
      any other function. */
  lemma ParsingYieldsTable(items: seq<Item>)
    ensures FeedAll(START, Render(items)).weights == Table(items)
  {
    ParserInvariant(items);
  }

  /** Lines before the first `impl` header, the trait's bodiless declarations among them, leave
      the parser where it starts, so a file parses to the table of what follows them. */
  lemma {:induction false} NothingBeforeHeader(lines: seq<Line>, items: seq<Item>)
    requires forall i :: 0 <= i < |lines| ==> lines[i].implPallet.None?
    ensures FeedAll(START, lines + Render(items)).weights == Table(items)
    decreases |lines|
  {
    if lines == [] {
      assert lines + Render(items) == Render(items);
      ParserInvariant(items);
    } else {
      assert Feed(START, lines[0]) == START;
      assert (lines + Render(items))[1..] == lines[1..] + Render(items);
      NothingBeforeHeader(lines[1..], items);
    }
  }

  /** Item `i` is a function that the parser files under this name: some header without type
      parameters precedes it. */
  ghost predicate FiledAs(items: seq<Item>, i: nat, name: string) {
    && i < |items| && items[i].Function?
    && CurrentPallet(items[..i]).Some? && Qualified(CurrentPallet(items[..i]).value, items[i].name) == name
  }

  lemma FiledInPrefix(items: seq<Item>, i: nat, name: string)
    requires i < |items| - 1
    ensures FiledAs(items[..|items| - 1], i, name) <==> FiledAs(items, i, name)
  {
    assert items[..|items| - 1][..i] == items[..i];
  }

  /** The last function filed under the name. */
  ghost predicate LastFiled(items: seq<Item>, i: nat, name: string) {
    FiledAs(items, i, name) && forall j: nat :: j > i ==> !FiledAs(items, j, name)
  }

  /** The last function filed under a name gives the record. */
  lemma {:induction false} TableRecord(items: seq<Item>, i: nat, name: string)
    requires LastFiled(items, i, name)
    ensures name in Table(items) && Table(items)[name] == RecordOf(items[i].body)
    decreases |items|
  {
    var last := |items| - 1;
    if i == last {
      assert items[..i] == items[..last];
    } else {
      var before := items[..last];
      assert !FiledAs(items, last, name);
      FiledInPrefix(items, i, name);
      forall j: nat | j > i ensures !FiledAs(before, j, name) {
        if j < last {
          FiledInPrefix(items, j, name);
        }
      }
      TableRecord(before, i, name);
    }
  }

  /** A name is in the table if and only if some function of that name stands after a
      recognised header. */
  lemma {:induction false} TableLookup(items: seq<Item>, name: string)
    ensures name in Table(items) <==> exists i: nat :: FiledAs(items, i, name)
    decreases |items|
  {
    if items == [] {
    } else {
      var last := |items| - 1;
      TableLookup(items[..last], name);
      if i: nat :| FiledAs(items[..last], i, name) {
        FiledInPrefix(items, i, name);
      }
      if i: nat :| FiledAs(items, i, name) && i < last {
        FiledInPrefix(items, i, name);
      }
      assert FiledAs(items, last, name) ==> name in Table(items);
      assert name in Table(items) && name !in Table(items[..last]) ==> FiledAs(items, last, name);
    }
  }

  // ---------------------------------------------------------------- one record for each function

  /** A pallet's name, which the parser cuts off at the first colon. */
  ghost predicate NoColon(name: string) {
    forall i :: 0 <= i < |name| ==> name[i] != ':'
  }

  /** The first colon ends the pallet's name. */
  lemma FirstColon(pallet: string, name: string)
    ensures |Qualified(pallet, name)| == |pallet| + 2 + |name| && Qualified(pallet, name)[|pallet|] == ':'
    ensures forall i :: 0 <= i < |pallet| ==> Qualified(pallet, name)[i] == pallet[i]
    ensures Qualified(pallet, name)[..|pallet|] == pallet && Qualified(pallet, name)[|pallet| + 2..] == name
  {
  }

  /** Two functions get two names: within one pallet always, and across pallets because a
      pallet's name holds no colon. */
  lemma QualifiedIsInjective(pallet: string, name: string, other: string, otherName: string)
    requires pallet == other || (NoColon(pallet) && NoColon(other))
    ensures Qualified(pallet, name) == Qualified(other, otherName) <==> pallet == other && name == otherName
  {
    FirstColon(pallet, name);
    FirstColon(other, otherName);
  }

  /** Function `i` stands under this header. */
  ghost predicate Under(items: seq<Item>, i: nat, pallet: string) {
    i < |items| && items[i].Function? && CurrentPallet(items[..i]) == Some(pallet)
  }

  /** Every header names a pallet. */
  ghost predicate PalletNames(items: seq<Item>) {
    forall i :: 0 <= i < |items| && items[i].Header? ==> NoColon(items[i].pallet)
  }

  lemma {:induction false} CurrentPalletName(items: seq<Item>)
    requires PalletNames(items)
    ensures CurrentPallet(items).Some? ==> NoColon(CurrentPallet(items).value)
    decreases |items|
  {
    if items == [] {
    } else {
      assert forall i :: 0 <= i < |items| - 1 ==> items[..|items| - 1][i] == items[i];
      CurrentPalletName(items[..|items| - 1]);
    }
  }

  /** Each function of each pallet has its own record, from its own body alone: the last one of
      that name under a header of that pallet, whatever functions of other names or other
      pallets the file has. */
  lemma EachFunctionHasItsRecord(items: seq<Item>, i: nat, pallet: string)
    requires PalletNames(items) && Under(items, i, pallet)
    requires forall j :: i < j < |items| && Under(items, j, pallet) ==> items[j].name != items[i].name
    ensures Qualified(pallet, items[i].name) in FeedAll(START, Render(items)).weights
    ensures FeedAll(START, Render(items)).weights[Qualified(pallet, items[i].name)] == RecordOf(items[i].body)
  {
    var name := Qualified(pallet, items[i].name);
    PrefixPallet(items, i);
    forall j: nat | j > i ensures !FiledAs(items, j, name) {
      if FiledAs(items, j, name) {
        PrefixPallet(items, j);
        var other := CurrentPallet(items[..j]).value;
        QualifiedIsInjective(pallet, items[i].name, other, items[j].name);
      }
    }
    TableRecord(items, i, name);
    ParsingYieldsTable(items);
  }

  lemma PrefixPallet(items: seq<Item>, i: nat)
    requires PalletNames(items) && i <= |items|
    ensures CurrentPallet(items[..i]).Some? ==> NoColon(CurrentPallet(items[..i]).value)
  {
    assert forall k :: 0 <= k < i ==> items[..i][k] == items[k];
    CurrentPalletName(items[..i]);
  }

  /** Lines that no generator writes: a closing line files the record without its own term, which
      then opens the next record; a header or a function inside a function takes over at once. */
  lemma UnusualLines(s: ParserState, t: Term, pallet: string, name: string)
    requires s.readingFunc && s.startReading
    ensures var closed := Feed(s, Line(None, None, true, t));
            && s.functionName in closed.weights && closed.weights[s.functionName] == s.acc
            && !closed.readingFunc && closed.acc == Accumulate(EMPTY_RECORD, t)
    ensures var inside := Feed(s, Line(Some(pallet), Some(name), false, t));
            && inside.readingFunc && inside.functionName == Qualified(pallet, name)
            && inside.acc == Accumulate(s.acc, t) && inside.weights == s.weights
    ensures var turned := Feed(s, Line(None, Some(name), true, t));
            && turned.readingFunc && turned.functionName == Qualified(s.palletName, name)
            && turned.acc == Accumulate(EMPTY_RECORD, t) && turned.weights == s.weights[s.functionName := s.acc]
  {
  }

  // ---------------------------------------------------------------- the evaluator

  datatype EvalError = KeyError

  type Params = map<string, map<string, nat>>

  /** A variable that is not given is warned about and counts as nothing. */
  function Env(given: map<string, nat>, name: string): nat {
    if name in given then given[name] else 0
  }

  function SumVars(vars: seq<(string, nat)>, given: map<string, nat>): nat {
    if vars == [] then 0
    else SumVars(vars[..|vars| - 1], given) + Env(given, vars[|vars| - 1].0) * vars[|vars| - 1].1
  }

  function Given(params: Params, extrinsic: string): map<string, nat> {
    if extrinsic in params then params[extrinsic] else map[]
  }

  /** Some variable of the list is given. */
  ghost predicate AnyGiven(vars: seq<(string, nat)>, given: map<string, nat>) {
    exists i :: 0 <= i < |vars| && vars[i].0 in given
  }

  /** `calc_vars_weight`: the scaled-write loop indexes the parameters with the whole pair and
      fails as soon as a scaled write's variable is given. */
  method CalcVarsWeight(weight: Record, extrinsic: string, params: Params) returns (r: Result<nat, EvalError>)
    ensures r.Err? <==> AnyGiven(weight.writesVars, Given(params, extrinsic))
    ensures r.Ok? ==> r.value == SumVars(weight.vars, Given(params, extrinsic))
                               + SumVars(weight.readsVars, Given(params, extrinsic)) * READ_WEIGHT
  {
    var total := 0;
    var given := Given(params, extrinsic);
    if extrinsic in params {
      for i := 0 to |weight.vars|
        invariant total == SumVars(weight.vars[..i], given)
      {
        assert weight.vars[..i + 1][..i] == weight.vars[..i];
        var (name, factor) := weight.vars[i];
        if name in params[extrinsic] {
          total := total + params[extrinsic][name] * factor;
        }
      }
      assert weight.vars[..|weight.vars|] == weight.vars;
      var varsTotal := total;
      for i := 0 to |weight.readsVars|
        invariant total == varsTotal + SumVars(weight.readsVars[..i], given) * READ_WEIGHT
      {
        assert weight.readsVars[..i + 1][..i] == weight.readsVars[..i];
        var (name, factor) := weight.readsVars[i];
        if name in params[extrinsic] {
          total := total + params[extrinsic][name] * factor * READ_WEIGHT;
        }
      }
      assert weight.readsVars[..|weight.readsVars|] == weight.readsVars;
      for i := 0 to |weight.writesVars|
        invariant forall j :: 0 <= j < i ==> weight.writesVars[j].0 !in given
      {
        if weight.writesVars[i].0 in params[extrinsic] {
          return Err(KeyError);
        }
      }
    } else {
      NothingGiven(weight.vars);
      NothingGiven(weight.readsVars);
    }
    return Ok(total);
  }

  lemma {:induction false} NothingGiven(vars: seq<(string, nat)>)
    ensures SumVars(vars, map[]) == 0
    decreases |vars|
  {
    if vars == [] {
    } else {
      NothingGiven(vars[..|vars| - 1]);
    }
  }

  /** The value `calc_weight` returns when it returns. */
  function CalcValue(w: Record, given: map<string, nat>): nat {
    SumVars(w.vars, given) + SumVars(w.readsVars, given) * READ_WEIGHT
      + w.baseWeight + w.readsBase * READ_WEIGHT + w.writesBase * WRITE_WEIGHT + EXTRINSIC_BASE_WEIGHT
  }

  method CalcWeight(weight: Record, extrinsic: string, params: Params) returns (r: Result<nat, EvalError>)
    ensures r.Err? <==> AnyGiven(weight.writesVars, Given(params, extrinsic))
    ensures r.Ok? ==> r.value == CalcValue(weight, Given(params, extrinsic))
  {
    var varsWeight := CalcVarsWeight(weight, extrinsic, params);
    if varsWeight.Err? {
      return varsWeight;
    }
    return Ok(varsWeight.value + weight.baseWeight + weight.readsBase * READ_WEIGHT
              + weight.writesBase * WRITE_WEIGHT + EXTRINSIC_BASE_WEIGHT);
  }

  // ---------------------------------------------------------------- the Rust weight expression

  /** The value of one term without overflow, for database weights `read` and `write`. */
  function Exact(t: Term, env: map<string, nat>, read: nat, write: nat): nat {
    match t
    case Nothing => 0
    case Base(w) => w
    case Scaled(v, f) => f * Env(env, v)
    case Reads(n) => read * n
    case ReadsScaled(v, f) => read * (f * Env(env, v))
    case Writes(n) => write * n
    case WritesScaled(v, f) => write * (f * Env(env, v))
  }

  /** The same term with every multiplication saturating. */
  function Saturating(t: Term, env: map<string, nat>, read: nat, write: nat): nat {
    match t
    case Nothing => 0
    case Base(w) => w
    case Scaled(v, f) => Sat64(f * Env(env, v))
    case Reads(n) => Sat64(read * n)
    case ReadsScaled(v, f) => Sat64(read * Sat64(f * Env(env, v)))
    case Writes(n) => Sat64(write * n)
    case WritesScaled(v, f) => Sat64(write * Sat64(f * Env(env, v)))
  }

  function ExactWeight(body: seq<Term>, env: map<string, nat>, read: nat, write: nat): nat {
    if body == [] then 0
    else ExactWeight(body[..|body| - 1], env, read, write) + Exact(body[|body| - 1], env, read, write)
  }

  /** The Rust function: a chain of saturating additions in body order. */
  function RustWeight(body: seq<Term>, env: map<string, nat>, read: nat, write: nat): nat {
    if body == [] then 0
    else Sat64(RustWeight(body[..|body| - 1], env, read, write) + Saturating(body[|body| - 1], env, read, write))
  }

  lemma ExactPrefix(body: seq<Term>, k: nat, env: map<string, nat>, read: nat, write: nat)
    requires k < |body|
    ensures ExactWeight(body[..k + 1], env, read, write)
         == ExactWeight(body[..k], env, read, write) + Exact(body[k], env, read, write)
  {
    assert body[..k + 1][..k] == body[..k];
  }

  lemma SaturatingMul(a: nat, b: nat)
    ensures Sat64(a * Sat64(b)) == Sat64(a * b)
  {
    if b >= U64_MAX {
      if a == 0 {
      } else {
        assert a * b >= 1 * b by { assert (a - 1) * b >= 0; }
        assert a * U64_MAX >= 1 * U64_MAX by { assert (a - 1) * U64_MAX >= 0; }
      }
    }
  }

  /** Saturating step by step is the same as saturating the exact value once. */
  lemma {:induction false} RustWeightSaturatesOnce(body: seq<Term>, env: map<string, nat>, read: nat, write: nat)
    ensures RustWeight(body, env, read, write) == Sat64(ExactWeight(body, env, read, write))
    decreases |body|
  {
    if body == [] {
    } else {
      var t := body[|body| - 1];
      RustWeightSaturatesOnce(body[..|body| - 1], env, read, write);
      if t.ReadsScaled? {
        SaturatingMul(read, t.factor * Env(env, t.name));
      } else if t.WritesScaled? {
        SaturatingMul(write, t.factor * Env(env, t.name));
      }
      assert Sat64(Saturating(t, env, read, write)) == Sat64(Exact(t, env, read, write));
    }
  }

  // ---------------------------------------------------------------- parse, then evaluate

  /** What an unscaled line throws away: the value of the same kind it overwrites. */
  function Displaced(r: Record, t: Term): nat {
    match t
    case Base(_) => r.baseWeight
    case Reads(_) => r.readsBase * READ_WEIGHT
    case Writes(_) => r.writesBase * WRITE_WEIGHT
    case _ => 0
  }

  function Overwritten(body: seq<Term>): nat {
    if body == [] then 0
    else Overwritten(body[..|body| - 1]) + Displaced(RecordOf(body[..|body| - 1]), body[|body| - 1])
  }

  /** A scaled write whose variable is given: the evaluator's failing case. */
  ghost predicate ScaledWriteGiven(body: seq<Term>, given: map<string, nat>) {
    exists i :: 0 <= i < |body| && body[i].WritesScaled? && body[i].name in given
  }

  lemma SumVarsAppend(vars: seq<(string, nat)>, v: string, f: nat, given: map<string, nat>)
    ensures SumVars(vars + [(v, f)], given) == SumVars(vars, given) + Env(given, v) * f
  {
    assert (vars + [(v, f)])[..|vars|] == vars;
  }

  /** Line by line, the record loses exactly what is overwritten and nothing else. */
  lemma {:induction false} RecordAccountsForBody(body: seq<Term>, given: map<string, nat>)
    requires !ScaledWriteGiven(body, given)
    ensures CalcValue(RecordOf(body), given) + Overwritten(body)
         == ExactWeight(body, given, READ_WEIGHT, WRITE_WEIGHT) + EXTRINSIC_BASE_WEIGHT
    decreases |body|
  {
    if body == [] {
    } else {
      var front, t := body[..|body| - 1], body[|body| - 1];
      assert forall i :: 0 <= i < |front| ==> front[i] == body[i];
      assert t.WritesScaled? ==> t.name !in given by { assert body[|body| - 1] == t; }
      RecordAccountsForBody(front, given);
      TermAccounted(RecordOf(front), t, given);
    }
  }

  /** One line adds its exact value to the record, less what it overwrites. */
  lemma TermAccounted(r: Record, t: Term, given: map<string, nat>)
    requires t.WritesScaled? ==> t.name !in given
    ensures CalcValue(Accumulate(r, t), given) + Displaced(r, t)
         == CalcValue(r, given) + Exact(t, given, READ_WEIGHT, WRITE_WEIGHT)
  {
    match t {
      case Scaled(v, f) => SumVarsAppend(r.vars, v, f, given);
      case ReadsScaled(v, f) => SumVarsAppend(r.readsVars, v, f, given);
      case _ =>
    }
  }

  lemma AnyGivenAppend(vars: seq<(string, nat)>, last: (string, nat), given: map<string, nat>)
    ensures AnyGiven(vars + [last], given) <==> AnyGiven(vars, given) || last.0 in given
  {
    var longer := vars + [last];
    assert longer[|vars|] == last;
    assert forall i :: 0 <= i < |vars| ==> longer[i] == vars[i];
  }

  lemma ScaledWriteAppend(front: seq<Term>, t: Term, given: map<string, nat>)
    ensures ScaledWriteGiven(front + [t], given)
       <==> ScaledWriteGiven(front, given) || (t.WritesScaled? && t.name in given)
  {
    var body := front + [t];
    assert body[|front|] == t;
    assert forall i :: 0 <= i < |front| ==> body[i] == front[i];
  }

  lemma {:induction false} WritesVarsOfBody(body: seq<Term>, given: map<string, nat>)
    ensures AnyGiven(RecordOf(body).writesVars, given) <==> ScaledWriteGiven(body, given)
    decreases |body|
  {
    if body == [] {
    } else {
      var front, t := body[..|body| - 1], body[|body| - 1];
      assert body == front + [t];
      WritesVarsOfBody(front, given);
      ScaledWriteAppend(front, t, given);
      if t.WritesScaled? {
        AnyGivenAppend(RecordOf(front).writesVars, (t.name, t.factor), given);
      }
    }
  }

  /** Two unscaled lines of the same kind: the later one overwrites the earlier. */
  predicate SameKind(s: Term, t: Term) {
    (s.Base? && t.Base?) || (s.Reads? && t.Reads?) || (s.Writes? && t.Writes?)
  }

  /** What an unscaled line says. */
  function Amount(t: Term): nat {
    match t
    case Base(w) => w
    case Reads(n) => n
    case Writes(n) => n
    case _ => 0
  }

  /** An unscaled line says something only if no later line of its kind overwrites it. */
  ghost predicate OnlyZerosRepeated(body: seq<Term>) {
    forall i, j :: 0 <= i < j < |body| && SameKind(body[i], body[j]) ==> Amount(body[i]) == 0
  }

  /** Every line of the kind of `t` says zero. */
  ghost predicate ZeroKind(body: seq<Term>, t: Term) {
    forall i :: 0 <= i < |body| && SameKind(body[i], t) ==> Amount(body[i]) == 0
  }

  lemma OnlyZerosAppend(front: seq<Term>, t: Term)
    ensures OnlyZerosRepeated(front + [t]) <==> OnlyZerosRepeated(front) && ZeroKind(front, t)
  {
    var body := front + [t];
    assert body[|front|] == t;
    assert forall i :: 0 <= i < |front| ==> body[i] == front[i];
  }

  lemma ZeroKindAppend(front: seq<Term>, last: Term, t: Term)
    ensures ZeroKind(front + [last], t) <==> ZeroKind(front, t) && (SameKind(last, t) ==> Amount(last) == 0)
  {
    var body := front + [last];
    assert body[|front|] == last;
    assert forall i :: 0 <= i < |front| ==> body[i] == front[i];
  }

  /** Where only zeros are repeated, a line overwrites nothing exactly if its kind said zero. */
  lemma {:induction false} DisplacedIsZero(body: seq<Term>, t: Term)
    requires OnlyZerosRepeated(body)
    ensures Displaced(RecordOf(body), t) == 0 <==> !SameKind(t, t) || ZeroKind(body, t)
    decreases |body|
  {
    if body == [] {
    } else {
      var front, last := body[..|body| - 1], body[|body| - 1];
      assert body == front + [last];
      OnlyZerosAppend(front, last);
      ZeroKindAppend(front, last, t);
      DisplacedIsZero(front, t);
      if SameKind(last, t) {
        assert ZeroKind(front, t);
      }
    }
  }

  /** Nothing is overwritten exactly when only zeros are repeated. */
  lemma {:induction false} NothingOverwrittenIff(body: seq<Term>)
    ensures Overwritten(body) == 0 <==> OnlyZerosRepeated(body)
    decreases |body|
  {
    if body == [] {
    } else {
      var front, t := body[..|body| - 1], body[|body| - 1];
      assert body == front + [t];
      NothingOverwrittenIff(front);
      OnlyZerosAppend(front, t);
      if OnlyZerosRepeated(front) {
        DisplacedIsZero(front, t);
      }
    }
  }

  /** Evaluating the parsed record of a body: it fails exactly when a scaled write's variable
      is given; otherwise it is the exact Rust weight at the given variables (missing ones as
      zero) plus the extrinsic base if and only if every unscaled line that a later one of its
      kind overwrites says zero. */
  lemma EvaluatesTheRustWeight(body: seq<Term>, given: map<string, nat>)
    ensures AnyGiven(RecordOf(body).writesVars, given) <==> ScaledWriteGiven(body, given)
    ensures !ScaledWriteGiven(body, given) ==>
              (CalcValue(RecordOf(body), given)
                 == ExactWeight(body, given, READ_WEIGHT, WRITE_WEIGHT) + EXTRINSIC_BASE_WEIGHT
               <==> OnlyZerosRepeated(body))
  {
    WritesVarsOfBody(body, given);
    if !ScaledWriteGiven(body, given) {
      RecordAccountsForBody(body, given);
    }
    NothingOverwrittenIff(body);
  }

  /** A body on which the evaluator is wrong: of two lines of reads only the last one counts. Two
      reads, one write and the base come to 275 million, while the three reads and the write
      alone weigh 175 million. */
  lemma RepeatedReadsAreLost(given: map<string, nat>)
    ensures var body := [Reads(1), Reads(2), Writes(1)];
            && CalcValue(RecordOf(body), given) == 275_000_000
            && ExactWeight(body, given, READ_WEIGHT, WRITE_WEIGHT) == 175_000_000
  {
    var body := [Reads(1), Reads(2), Writes(1)];
    assert body[..2] == [Reads(1), Reads(2)] && body[..3] == body;
    assert body[..2][..1] == [Reads(1)] && [Reads(1)][..0] == [];
    assert RecordOf([Reads(1)]) == EMPTY_RECORD.(readsBase := 1);
    assert RecordOf(body[..2]) == EMPTY_RECORD.(readsBase := 2);
    ExactPrefix(body, 0, given, READ_WEIGHT, WRITE_WEIGHT);
    ExactPrefix(body, 1, given, READ_WEIGHT, WRITE_WEIGHT);
    ExactPrefix(body, 2, given, READ_WEIGHT, WRITE_WEIGHT);
  }

  /** The whole tool: parse a generated file, look a function up, evaluate it. */
  method Analyse(preamble: seq<Line>, items: seq<Item>, ghost i: nat, name: string, params: Params)
    returns (r: Result<nat, EvalError>)
    requires forall k :: 0 <= k < |preamble| ==> preamble[k].implPallet.None?
    requires LastFiled(items, i, name)
    ensures var body, given := items[i].body, Given(params, name);
            var exact := ExactWeight(body, given, READ_WEIGHT, WRITE_WEIGHT);
            && (r.Err? <==> ScaledWriteGiven(body, given))
            && (r.Ok? ==>
                  && r.value + Overwritten(body) == exact + EXTRINSIC_BASE_WEIGHT
                  && (r.value == RustWeight(body, given, READ_WEIGHT, WRITE_WEIGHT) + EXTRINSIC_BASE_WEIGHT
                      <==> if exact <= U64_MAX then OnlyZerosRepeated(body) else exact == U64_MAX + Overwritten(body)))
  {
    var weights := ParseWeights(preamble + Render(items));
    NothingBeforeHeader(preamble, items);
    TableRecord(items, i, name);
    r := CalcWeight(weights[name], name, params);
    EvaluatesTheRustWeight(items[i].body, Given(params, name));
    if !ScaledWriteGiven(items[i].body, Given(params, name)) {
      RecordAccountsForBody(items[i].body, Given(params, name));
    }
    RustWeightSaturatesOnce(items[i].body, Given(params, name), READ_WEIGHT, WRITE_WEIGHT);
  }

  // ---------------------------------------------------------------- headers with type parameters

  ghost predicate NoHeader(items: seq<Item>) {
    forall i :: 0 <= i < |items| ==> !items[i].Header?
  }

  lemma {:induction false} NoPallet(items: seq<Item>)
    requires NoHeader(items)
    ensures CurrentPallet(items).None?
    decreases |items|
  {
    if items == [] {
    } else {
      NoPallet(items[..|items| - 1]);
    }
  }

  /** Whatever stands under generic headers alone never reaches the table: the rest of the file
      yields the same table without it. */
  lemma {:induction false} GenericBodiesAreLost(generic: seq<Item>, rest: seq<Item>)
    requires NoHeader(generic)
    ensures Table(generic + rest) == Table(rest)
    ensures CurrentPallet(generic + rest) == CurrentPallet(rest)
    decreases |generic| + |rest|
  {
    if rest != [] {
      assert (generic + rest)[..|generic + rest| - 1] == generic + rest[..|rest| - 1];
      GenericBodiesAreLost(generic, rest[..|rest| - 1]);
    } else if generic != [] {
      assert generic + rest == generic;
      NoPallet(generic);
      var front := generic[..|generic| - 1];
      NoPallet(front);
      assert front + [] == front;
      GenericBodiesAreLost(front, []);
    }
  }

  /** Every function of the items has a body that says nothing. */
  ghost predicate Silent(items: seq<Item>) {
    forall i :: 0 <= i < |items| && items[i].Function? ==> SilentTerms(items[i].body)
  }

  ghost predicate SilentTerms(body: seq<Term>) {
    forall k :: 0 <= k < |body| ==> body[k] == Nothing
  }

  /** The files of the repository: the real implementation under a header with type parameters,
      then a default implementation `impl WeightInfo for ()` whose bodies are all zero. */
  function WithDefaults(pallet: string, functions: seq<Item>, defaults: seq<Item>): seq<Item> {
    [GenericHeader(pallet)] + functions + ([Header(pallet)] + defaults)
  }

  lemma {:induction false} SilentTable(items: seq<Item>, name: string)
    requires Silent(items) && name in Table(items)
    ensures Table(items)[name] == EMPTY_RECORD
    decreases |items|
  {
    if items == [] {
      assert false;
    } else {
      var before, last := items[..|items| - 1], items[|items| - 1];
      assert forall i :: 0 <= i < |before| ==> before[i] == items[i];
      if last.Function? {
        assert SilentTerms(last.body);
        SilentBody(last.body);
      }
      if name in Table(before) {
        SilentTable(before, name);
      }
    }
  }

  /** In such a file every record is empty, whatever the real bodies say: a function with a
      default is evaluated to the bare extrinsic base, which is right exactly when its real
      weight at the given variables is zero. */
  lemma GenericImplYieldsEmptyRecords(
      pallet: string, functions: seq<Item>, defaults: seq<Item>, i: nat, j: nat, given: map<string, nat>)
    requires NoHeader(functions) && NoHeader(defaults) && Silent(defaults)
    requires i < |functions| && functions[i].Function?
    requires j < |defaults| && defaults[j].Function? && defaults[j].name == functions[i].name
    ensures var table := Table(WithDefaults(pallet, functions, defaults));
            var name, body := Qualified(pallet, functions[i].name), functions[i].body;
            && name in table && (forall other :: other in table ==> table[other] == EMPTY_RECORD)
            && CalcValue(table[name], given) == EXTRINSIC_BASE_WEIGHT
            && (CalcValue(table[name], given)
                  == ExactWeight(body, given, READ_WEIGHT, WRITE_WEIGHT) + EXTRINSIC_BASE_WEIGHT
                <==> ExactWeight(body, given, READ_WEIGHT, WRITE_WEIGHT) == 0)
  {
    var rest := [Header(pallet)] + defaults;
    GenericBodiesAreLost([GenericHeader(pallet)] + functions, rest);
    forall other | other in Table(rest) ensures Table(rest)[other] == EMPTY_RECORD {
      SilentTable(rest, other);
    }
    PalletOfDefaults(pallet, defaults[..j]);
    assert rest[..j + 1] == [Header(pallet)] + defaults[..j];
    assert FiledAs(rest, j + 1, Qualified(pallet, functions[i].name));
    TableLookup(rest, Qualified(pallet, functions[i].name));
  }

  lemma {:induction false} PalletOfDefaults(pallet: string, defaults: seq<Item>)
    requires NoHeader(defaults)
    ensures CurrentPallet([Header(pallet)] + defaults) == Some(pallet)
    decreases |defaults|
  {
    var items := [Header(pallet)] + defaults;
    if defaults == [] {
      assert items[|items| - 1] == Header(pallet);
    } else {
      assert items[..|items| - 1] == [Header(pallet)] + defaults[..|defaults| - 1];
      PalletOfDefaults(pallet, defaults[..|defaults| - 1]);
    }
  }

  /** The smallest such file: its one function weighs seven and is recorded as weighing nothing. */
  lemma GenericHeaderLosesABody()
    ensures var weighed, dummy := Function("f", [Base(7)]), Function("f", [Nothing]);
            var lines := Render(WithDefaults("WeightInfo", [weighed], [dummy]));
            && ExactWeight(weighed.body, map[], READ_WEIGHT, WRITE_WEIGHT) == 7
            && FeedAll(START, lines).weights == map[Qualified("WeightInfo", "f") := EMPTY_RECORD]
  {
    var weighed, dummy := Function("f", [Base(7)]), Function("f", [Nothing]);
    var rest := [Header("WeightInfo")] + [dummy];
    ParsingYieldsTable(WithDefaults("WeightInfo", [weighed], [dummy]));
    GenericBodiesAreLost([GenericHeader("WeightInfo")] + [weighed], rest);
    assert rest[..1] == [Header("WeightInfo")] && [Header("WeightInfo")][..0] == [];
    assert Table(rest[..1]) == map[];
    SilentBody(dummy.body);
    assert [Base(7)][..0] == [];
  }

  lemma {:induction false} SilentBody(body: seq<Term>)
    requires SilentTerms(body)
    ensures RecordOf(body) == EMPTY_RECORD
    decreases |body|
  {
    if body == [] {
    } else {
      SilentBody(body[..|body| - 1]);
    }
  }
}
