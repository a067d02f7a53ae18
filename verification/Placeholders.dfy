/** Placeholder text: rendering `$n::cast`, reading it back, and the `?` to `$n` rewriting of postgres.rs. */
module Placeholders {
  import opened Prelude
  import opened SqlValues

  // ---- decimal numbers ----

  predicate IsDigit(c: char) {
    '0' <= c <= '9'
  }

  predicate AllDigits(s: string) {
    forall i :: 0 <= i < |s| ==> IsDigit(s[i])
  }

  function DigitChar(d: nat): char
    requires d < 10
  {
    '0' + d as char
  }

  function Numeral(n: nat): (s: string)
    ensures s != "" && AllDigits(s)
  {
    if n < 10 then [DigitChar(n)] else Numeral(n / 10) + [DigitChar(n % 10)]
  }

  function NumeralValue(s: string): nat
    requires AllDigits(s)
  {
    if s == "" then 0 else NumeralValue(s[..|s| - 1]) * 10 + (s[|s| - 1] - '0') as nat
  }

  lemma {:induction false} ReadsBack(n: nat)
    ensures NumeralValue(Numeral(n)) == n
  {
    if n >= 10 {
      ReadsBack(n / 10);
      var s := Numeral(n);
      assert s[..|s| - 1] == Numeral(n / 10);
    }
  }

  /** Appending digits to the numeral of a positive number makes a larger number. */
  lemma {:induction false} LongerIsLarger(s: string, t: string)
    requires AllDigits(s) && AllDigits(t) && t != "" && NumeralValue(s) > 0
    ensures NumeralValue(s + t) > NumeralValue(s)
  {
    var u := t[..|t| - 1];
    assert (s + t)[..|s + t| - 1] == s + u;
    if u == "" {
      assert s + u == s;
    } else {
      LongerIsLarger(s, u);
    }
  }

  function DigitRun(s: string): (n: nat)
    ensures n <= |s| && AllDigits(s[..n]) && (n < |s| ==> !IsDigit(s[n]))
  {
    if s == "" || !IsDigit(s[0]) then 0 else
      var n := 1 + DigitRun(s[1..]);
      assert s[..n] == [s[0]] + s[1..][..n - 1];
      n
  }

  lemma {:induction false} DigitRunAppend(d: string, rest: string)
    requires AllDigits(d)
    ensures DigitRun(d + rest) == |d| + DigitRun(rest)
  {
    if d == "" {
      assert d + rest == rest;
    } else {
      DigitRunAppend(d[1..], rest);
      assert (d + rest)[1..] == d[1..] + rest;
    }
  }

  // ---- casts ----

  datatype Cast = DateCast | TimestampCast | TimeCast | JsonbCast | VectorCast | UuidCast | IntegerCast

  function CastText(c: Option<Cast>): string {
    match c
    case None => ""
    case Some(DateCast) => "::date"
    case Some(TimestampCast) => "::timestamp"
    case Some(TimeCast) => "::time"
    case Some(JsonbCast) => "::jsonb"
    case Some(VectorCast) => "::vector"
    case Some(UuidCast) => "::uuid"
    case Some(IntegerCast) => "::integer"
  }

  /** The cast the registry's field type asks for. */
  function CastForType(dataType: string): Option<Cast> {
    match dataType
    case "DateField" => Some(DateCast)
    case "TimeField" => Some(TimeCast)
    case "JSONField" => Some(JsonbCast)
    case "VectorField" => Some(VectorCast)
    case "UUIDField" => Some(UuidCast)
    case "ForeignKey" => Some(IntegerCast)
    case _ => None
  }

  /** `render_placeholder`, which counts from zero. */
  function Render(index: nat, cast: Option<Cast>): string {
    "$" + (Numeral(index + 1) + CastText(cast))
  }

  // ---- reading a statement ----

  /** What a statement's text says, with its parameters picked out. */
  datatype Token = Param(index: nat) | Plain(c: char)

  /** Where the reader is: outside quotes, in a string literal, or in a quoted name. A doubled quote
      ends the quotation and begins it again. */
  datatype Quote = Outside | InString | InName

  function NextQuote(quote: Quote, c: char): Quote {
    match quote
    case Outside => if c == '\'' then InString else if c == '"' then InName else Outside
    case InString => if c == '\'' then Outside else InString
    case InName => if c == '"' then Outside else InName
  }

  /** How PostgreSQL reads it: outside quotes, `$` and the digits after it name a parameter. */
  function ReadNumbered(s: string, quote: Quote): seq<Token>
    decreases |s|
  {
    if s == "" then []
    else if quote.Outside? && s[0] == '$' && |s| > 1 && IsDigit(s[1]) then
      var n := DigitRun(s[1..]);
      [Param(NumeralValue(s[1..][..n]))] + ReadNumbered(s[1..][n..], Outside)
    else [Plain(s[0])] + ReadNumbered(s[1..], NextQuote(quote, s[0]))
  }

  function PlainTokens(s: string): seq<Token> {
    if s == "" then [] else [Plain(s[0])] + PlainTokens(s[1..])
  }

  /** What the compiler put into the text: a character of SQL, or the place of a bind. */
  datatype Sign = Char(c: char) | Mark

  /** The text. A bind comes out as `?`, and so does the jsonb operator `?`. */
  function Written(signs: seq<Sign>): string {
    if signs == [] then "" else [if signs[0].Mark? then '?' else signs[0].c] + Written(signs[1..])
  }

  /** What it should say: the k-th bind is parameter k followed by its cast, all else is kept. `seen` is
      the number of binds already passed. */
  function Meant(signs: seq<Sign>, castOf: nat -> Option<Cast>, seen: nat): seq<Token> {
    if signs == [] then []
    else if signs[0].Mark? then
      [Param(seen + 1)] + PlainTokens(CastText(castOf(seen))) + Meant(signs[1..], castOf, seen + 1)
    else [Plain(signs[0].c)] + Meant(signs[1..], castOf, seen)
  }

  predicate DigitNext(signs: seq<Sign>) {
    signs != [] && signs[0].Char? && IsDigit(signs[0].c)
  }

  /** No `?` that is not a bind, no bind inside quotes, and, outside quotes, no digit right after a `$`
      or after a bind without a cast. */
  predicate Safe(signs: seq<Sign>, castOf: nat -> Option<Cast>, seen: nat, quote: Quote) {
    signs == [] ||
    if signs[0].Mark? then
      quote.Outside? && (castOf(seen).Some? || !DigitNext(signs[1..])) &&
      Safe(signs[1..], castOf, seen + 1, quote)
    else
      signs[0].c != '?' && !(quote.Outside? && signs[0].c == '$' && DigitNext(signs[1..])) &&
      Safe(signs[1..], castOf, seen, NextQuote(quote, signs[0].c))
  }

  function CountMarks(s: string): nat {
    if s == "" then 0 else (if s[0] == '?' then 1 else 0) + CountMarks(s[1..])
  }

  // ---- the rewriting ----

  function Piece(c: char, castOf: nat -> Option<Cast>, seen: nat): string {
    if c == '?' then Render(seen, castOf(seen)) else [c]
  }

  function Normalized(s: string, castOf: nat -> Option<Cast>, seen: nat): string {
    if s == "" then ""
    else Piece(s[0], castOf, seen) + Normalized(s[1..], castOf, if s[0] == '?' then seen + 1 else seen)
  }

  lemma NormalizedCons(first: char, rest: string, castOf: nat -> Option<Cast>, seen: nat)
    ensures var next := if first == '?' then seen + 1 else seen;
            Normalized([first] + rest, castOf, seen) == Piece(first, castOf, seen) + Normalized(rest, castOf, next) &&
            CountMarks([first] + rest) == next - seen + CountMarks(rest)
  {
    assert ([first] + rest)[0] == first && ([first] + rest)[1..] == rest;
  }

  lemma {:induction false} MarksConcat(a: string, b: string)
    ensures CountMarks(a + b) == CountMarks(a) + CountMarks(b)
  {
    if a == "" {
      assert a + b == b;
    } else {
      assert (a + b)[1..] == a[1..] + b;
      MarksConcat(a[1..], b);
    }
  }

  lemma {:induction false} NormalizedAppend(s: string, c: char, castOf: nat -> Option<Cast>, seen: nat)
    ensures Normalized(s + [c], castOf, seen) ==
            Normalized(s, castOf, seen) + Piece(c, castOf, seen + CountMarks(s))
    ensures CountMarks(s + [c]) == CountMarks(s) + if c == '?' then 1 else 0
    decreases |s|, 1
  {
    MarksConcat(s, [c]);
    if s == "" {
      NormalizedCons(c, "", castOf, seen);
      assert s + [c] == [c] + "" && Piece(c, castOf, seen) + "" == "" + Piece(c, castOf, seen);
    } else {
      NormalizedAppendCons(s[0], s[1..], c, castOf, seen);
      assert s == [s[0]] + s[1..];
    }
  }

  lemma {:induction false} NormalizedAppendCons(
    first: char, rest: string, c: char, castOf: nat -> Option<Cast>, seen: nat)
    ensures Normalized([first] + rest + [c], castOf, seen) ==
            Normalized([first] + rest, castOf, seen) + Piece(c, castOf, seen + CountMarks([first] + rest))
    decreases |rest| + 1, 0
  {
    var next := if first == '?' then seen + 1 else seen;
    NormalizedCons(first, rest, castOf, seen);
    NormalizedCons(first, rest + [c], castOf, seen);
    NormalizedAppend(rest, c, castOf, next);
    Associative([first], rest, [c]);
    var last := Piece(c, castOf, next + CountMarks(rest));
    Associative(Piece(first, castOf, seen), Normalized(rest, castOf, next), last);
  }

  datatype CompiledQuery = CompiledQuery(
    sql: string, values: seq<SqlValue>, columnNames: Option<seq<string>>, baseTable: Option<string>)

  predicate IsDate(s: string) {
    |s| == 10 && s[4] == '-' && s[7] == '-'
  }

  predicate IsTimestamp(s: string) {
    ' ' in s && '-' in s && ':' in s
  }

  /** The cast of the `idx`-th `?`: the registered type of the column it assigns, else a guess from
      the bound value. `registry` gives the type name of a registered field. */
  function PlaceholderCast(q: CompiledQuery, registry: (string, string) -> Option<string>, idx: nat): Option<Cast> {
    var field :=
      if q.columnNames.Some? && q.baseTable.Some? && idx < |q.columnNames.value|
      then registry(q.baseTable.value, q.columnNames.value[idx]) else None;
    if field.Some? && CastForType(field.value).Some? then CastForType(field.value)
    else if idx >= |q.values| then None
    else match q.values[idx]
      case Date(_) => Some(DateCast)
      case DateTime(_) => Some(TimestampCast)
      case Vector(_) => Some(VectorCast)
      case Text(s) => if IsDate(s) then Some(DateCast) else if IsTimestamp(s) then Some(TimestampCast) else None
      case _ => None
  }

  /** The type that each registered field type's cast names. */
  const TYPE_TEXTS: map<string, string> := map[
    "DateField" := "::date", "TimeField" := "::time", "JSONField" := "::jsonb", "VectorField" := "::vector",
    "UUIDField" := "::uuid", "ForeignKey" := "::integer"]

  /** What is to follow the k-th parameter. A registered type with a cast wins; failing that, the value
      bound to it decides, if there is one. */
  predicate IsCastText(q: CompiledQuery, registry: (string, string) -> Option<string>, k: nat, text: string) {
    var field :=
      if q.columnNames.Some? && q.baseTable.Some? && k < |q.columnNames.value|
      then registry(q.baseTable.value, q.columnNames.value[k]) else None;
    if field.Some? && field.value in TYPE_TEXTS then text == TYPE_TEXTS[field.value]
    else if k >= |q.values| then text == ""
    else
      var v := q.values[k];
      var dateText := v.Text? && |v.s| == 10 && v.s[4] == '-' && v.s[7] == '-';
      var timestampText := v.Text? && !dateText && ' ' in v.s && '-' in v.s && ':' in v.s;
      text in ["", "::date", "::timestamp", "::vector"] &&
      (text == "::date" <==> v.Date? || dateText) &&
      (text == "::timestamp" <==> v.DateTime? || timestampText) &&
      (text == "::vector" <==> v.Vector?)
  }

  method Rewrite(sql: string, castOf: nat -> Option<Cast>) returns (out: string)
    ensures out == Normalized(sql, castOf, 0)
  {
    out := "";
    var idx := 0;
    for i := 0 to |sql|
      invariant idx == CountMarks(sql[..i]) && out == Normalized(sql[..i], castOf, 0)
    {
      var ch := sql[i];
      NormalizedAppend(sql[..i], ch, castOf, 0);
      assert sql[..i] + [ch] == sql[..i + 1];
      if ch == '?' {
        idx := idx + 1;
        var number, cast := Numeral(idx), CastText(castOf(idx - 1));
        Associative(out, "$", number);
        Associative(out, "$" + number, cast);
        Associative("$", number, cast);
        out := out + "$" + number + cast;
      } else {
        out := out + [ch];
      }
    }
    assert sql[..|sql|] == sql;
  }

  /** Whatever was meant by the text, the rewritten text says it exactly when it was safe. */
  method NormalizePostgresSql(query: CompiledQuery, registry: (string, string) -> Option<string>)
    returns (out: string)
    ensures var castOf := (i: nat) => PlaceholderCast(query, registry, i);
            out == Normalized(query.sql, castOf, 0) &&
            forall signs | Written(signs) == query.sql ::
              ReadNumbered(out, Outside) == Meant(signs, castOf, 0) <==> Safe(signs, castOf, 0, Outside)
  {
    var castOf := (i: nat) => PlaceholderCast(query, registry, i);
    out := Rewrite(query.sql, castOf);
    forall signs | Written(signs) == query.sql
      ensures ReadNumbered(out, Outside) == Meant(signs, castOf, 0) <==> Safe(signs, castOf, 0, Outside)
    {
      NormalizePreservesBinding(signs, castOf, 0, Outside);
    }
  }

  // ---- what it means ----

  predicate Inert(p: string) {
    '$' !in p && '\'' !in p && '"' !in p
  }

  lemma {:induction false} ReadPlain(p: string, rest: string)
    requires Inert(p)
    ensures ReadNumbered(p + rest, Outside) == PlainTokens(p) + ReadNumbered(rest, Outside)
  {
    if p == "" {
      assert p + rest == rest;
    } else {
      assert (p + rest)[1..] == p[1..] + rest && (p + rest)[0] == p[0] && p[0] in p;
      ReadPlain(p[1..], rest);
    }
  }

  lemma ReadDollar(t: string)
    requires t != "" && IsDigit(t[0])
    ensures ReadNumbered("$" + t, Outside) ==
            [Param(NumeralValue(t[..DigitRun(t)]))] + ReadNumbered(t[DigitRun(t)..], Outside)
  {
    var s := "$" + t;
    assert s[1..] == t && s[0] == '$' && s[1] == t[0];
  }

  lemma ReadNumeralText(d: string, rest: string)
    requires d != "" && AllDigits(d)
    ensures var run := rest[..DigitRun(rest)];
            AllDigits(d + run) && ReadNumbered("$" + (d + rest), Outside) ==
              [Param(NumeralValue(d + run))] + ReadNumbered(rest[|run|..], Outside)
  {
    var k := DigitRun(rest);
    DigitRunAppend(d, rest);
    assert (d + rest)[..|d| + k] == d + rest[..k] && (d + rest)[|d| + k..] == rest[k..];
    ReadDollar(d + rest);
  }

  /** A numeral followed by something other than a digit reads as that parameter. */
  lemma ReadParam(n: nat, rest: string)
    requires rest == "" || !IsDigit(rest[0])
    ensures ReadNumbered("$" + (Numeral(n) + rest), Outside) == [Param(n)] + ReadNumbered(rest, Outside)
  {
    ReadNumeralText(Numeral(n), rest);
    ReadsBack(n);
    assert Numeral(n) + rest[..0] == Numeral(n) && rest[0..] == rest;
  }

  /** A numeral run into a digit reads as a larger parameter number. */
  lemma ReadParamRunsOn(n: nat, rest: string)
    requires rest != "" && IsDigit(rest[0]) && n > 0
    ensures var read := ReadNumbered("$" + (Numeral(n) + rest), Outside);
            read != [] && read[0].Param? && read[0].index > n
  {
    ReadNumeralText(Numeral(n), rest);
    ReadsBack(n);
    LongerIsLarger(Numeral(n), rest[..DigitRun(rest)]);
  }

  lemma CastIsPlain(cast: Option<Cast>)
    ensures Inert(CastText(cast))
    ensures cast.Some? ==> CastText(cast) != "" && !IsDigit(CastText(cast)[0])
    ensures cast.None? ==> CastText(cast) == ""
  {
  }

  lemma ReadCast(n: nat, text: string, rest: string)
    requires Inert(text) && if text != "" then !IsDigit(text[0]) else rest == "" || !IsDigit(rest[0])
    ensures ReadNumbered("$" + (Numeral(n) + (text + rest)), Outside) ==
            [Param(n)] + (PlainTokens(text) + ReadNumbered(rest, Outside))
  {
    ReadPlain(text, rest);
    ReadParam(n, text + rest);
  }

  /** The head of the rewritten text is a digit exactly when the head of the input is. */
  lemma NormalizedHead(signs: seq<Sign>, castOf: nat -> Option<Cast>, seen: nat)
    ensures var out := Normalized(Written(signs), castOf, seen);
            DigitNext(signs) <==> out != "" && IsDigit(out[0])
  {
  }

  /** One numeral with its cast text: the parameter survives unless there is no cast and a digit follows. */
  lemma ParamPreserved(n: nat, text: string, out: string, tokens: seq<Token>)
    requires n > 0 && Inert(text) && (text != "" ==> !IsDigit(text[0]))
    ensures ReadNumbered("$" + (Numeral(n) + (text + out)), Outside) ==
            [Param(n)] + (PlainTokens(text) + tokens) <==>
            (text != "" || out == "" || !IsDigit(out[0])) && ReadNumbered(out, Outside) == tokens
  {
    var want := [Param(n)] + (PlainTokens(text) + tokens);
    if text == "" && out != "" && IsDigit(out[0]) {
      assert text + out == out;
      ReadParamRunsOn(n, out);
      assert want[0] == Param(n);
    } else {
      ReadCast(n, text, out);
      SameTail(PlainTokens(text), ReadNumbered(out, Outside), tokens);
      SameTail([Param(n)], PlainTokens(text) + ReadNumbered(out, Outside), PlainTokens(text) + tokens);
    }
  }

  lemma MarkPreserved(cast: Option<Cast>, seen: nat, out: string, tokens: seq<Token>)
    ensures ReadNumbered(Render(seen, cast) + out, Outside) ==
            [Param(seen + 1)] + PlainTokens(CastText(cast)) + tokens <==>
            (cast.Some? || out == "" || !IsDigit(out[0])) && ReadNumbered(out, Outside) == tokens
  {
    var d, text := Numeral(seen + 1), CastText(cast);
    CastIsPlain(cast);
    ParamPreserved(seen + 1, text, out, tokens);
    Associative("$", d + text, out);
    Associative(d, text, out);
    Associative([Param(seen + 1)], PlainTokens(text), tokens);
  }

  /** One other character survives unless it is a `$` before a digit outside quotes. */
  lemma PlainPreserved(c: char, quote: Quote, out: string, tokens: seq<Token>)
    ensures ReadNumbered([c] + out, quote) == [Plain(c)] + tokens <==>
            !(quote.Outside? && c == '$' && out != "" && IsDigit(out[0])) &&
            ReadNumbered(out, NextQuote(quote, c)) == tokens
  {
    assert ([c] + out)[1..] == out;
    if quote.Outside? && c == '$' && out != "" && IsDigit(out[0]) {
      ReadDollar(out);
      assert ([Plain(c)] + tokens)[0] == Plain(c);
    } else {
      SameTail([Plain(c)], ReadNumbered(out, NextQuote(quote, c)), tokens);
    }
  }

  /** A rewritten `?` begins with `$`: outside quotes it reads as a parameter, inside as that character,
      and in neither case as a `?`. */
  lemma RenderHead(cast: Option<Cast>, seen: nat, out: string, quote: Quote)
    ensures var read := ReadNumbered(Render(seen, cast) + out, quote);
            read != [] && (if quote.Outside? then read[0].Param? else read[0] == Plain('$'))
  {
    var d := Numeral(seen + 1);
    var s := Render(seen, cast) + out;
    assert s[0] == '$' && s[1] == d[0] && d[0] in d;
  }

  /** The rewritten statement says what was meant, parameter for parameter and character for character,
      exactly when the original is safe. */
  lemma {:induction false} NormalizePreservesBinding(
    signs: seq<Sign>, castOf: nat -> Option<Cast>, seen: nat, quote: Quote)
    ensures ReadNumbered(Normalized(Written(signs), castOf, seen), quote) == Meant(signs, castOf, seen) <==>
            Safe(signs, castOf, seen, quote)
  {
    if signs == [] {
    } else {
      var rest, first := signs[1..], Written(signs)[0];
      assert Written(signs)[1..] == Written(rest);
      var next := if first == '?' then seen + 1 else seen;
      var out := Normalized(Written(rest), castOf, next);
      NormalizedHead(rest, castOf, next);
      if first == '?' {
        RenderHead(castOf(seen), seen, out, quote);
      }
      if signs[0].Mark? && quote.Outside? {
        NormalizePreservesBinding(rest, castOf, next, Outside);
        MarkPreserved(castOf(seen), seen, out, Meant(rest, castOf, next));
      } else if signs[0].Char? && first != '?' {
        NormalizePreservesBinding(rest, castOf, next, NextQuote(quote, first));
        PlainPreserved(first, quote, out, Meant(rest, castOf, next));
      }
    }
  }

  // ---- the casts ----

  lemma TypeTexts(dataType: string)
    ensures CastForType(dataType).Some? <==> dataType in TYPE_TEXTS
    ensures CastForType(dataType).Some? ==> CastText(CastForType(dataType)) == TYPE_TEXTS[dataType]
  {
  }

  lemma PlaceholderCastText(q: CompiledQuery, registry: (string, string) -> Option<string>, k: nat)
    ensures IsCastText(q, registry, k, CastText(PlaceholderCast(q, registry, k)))
  {
    if q.columnNames.Some? && q.baseTable.Some? && k < |q.columnNames.value| {
      var field := registry(q.baseTable.value, q.columnNames.value[k]);
      if field.Some? { TypeTexts(field.value); }
    }
  }

  /** The signs one after the other, each as `read` has it. */
  function Spelled(signs: seq<Sign>, read: (Sign, nat) -> seq<Token>, seen: nat): seq<Token> {
    if signs == [] then []
    else read(signs[0], seen) + Spelled(signs[1..], read, if signs[0].Mark? then seen + 1 else seen)
  }

  lemma {:induction false} SpelledConcat(a: seq<Sign>, b: seq<Sign>, read: (Sign, nat) -> seq<Token>, seen: nat)
    ensures Spelled(a + b, read, seen) == Spelled(a, read, seen) + Spelled(b, read, seen + Marks(a))
  {
    if a == [] {
      assert a + b == b;
    } else {
      var next := if a[0].Mark? then seen + 1 else seen;
      assert (a + b)[0] == a[0] && (a + b)[1..] == a[1..] + b;
      SpelledConcat(a[1..], b, read, next);
      Associative(read(a[0], seen), Spelled(a[1..], read, next), Spelled(b, read, seen + Marks(a)));
    }
  }

  ghost function Reading(castOf: nat -> Option<Cast>): (Sign, nat) -> seq<Token> {
    (sign: Sign, seen: nat) =>
      if sign.Mark? then [Param(seen + 1)] + PlainTokens(CastText(castOf(seen))) else [Plain(sign.c)]
  }

  lemma {:induction false} MeantIsSpelled(signs: seq<Sign>, castOf: nat -> Option<Cast>, seen: nat)
    ensures Meant(signs, castOf, seen) == Spelled(signs, Reading(castOf), seen)
  {
    if signs == [] {
    } else {
      MeantIsSpelled(signs[1..], castOf, if signs[0].Mark? then seen + 1 else seen);
    }
  }

  lemma SpelledAt(before: seq<Sign>, after: seq<Sign>, read: (Sign, nat) -> seq<Token>)
    ensures var k := Marks(before);
            Spelled(before + ([Mark] + after), read, 0) ==
            Spelled(before, read, 0) + (read(Mark, k) + Spelled(after, read, k + 1))
  {
    SpelledConcat(before, [Mark] + after, read, 0);
    assert ([Mark] + after)[1..] == after;
  }

  lemma MeantAt(before: seq<Sign>, after: seq<Sign>, castOf: nat -> Option<Cast>)
    ensures var k := Marks(before);
            Meant(before + ([Mark] + after), castOf, 0) ==
            Meant(before, castOf, 0) +
            (([Param(k + 1)] + PlainTokens(CastText(castOf(k)))) + Meant(after, castOf, k + 1))
  {
    MeantIsSpelled(before + ([Mark] + after), castOf, 0);
    MeantIsSpelled(before, castOf, 0);
    MeantIsSpelled(after, castOf, Marks(before) + 1);
    SpelledAt(before, after, Reading(castOf));
  }

  /** In the rewritten text of a safe statement each bind is read as the parameter of its number with its
      cast after it; what comes before and after is as it was meant. */
  lemma ParameterHasCast(
    q: CompiledQuery, registry: (string, string) -> Option<string>, before: seq<Sign>, after: seq<Sign>)
    returns (text: string)
    requires Written(before + ([Mark] + after)) == q.sql
    requires Safe(before + ([Mark] + after), (k: nat) => PlaceholderCast(q, registry, k), 0, Outside)
    ensures var castOf, k := (k: nat) => PlaceholderCast(q, registry, k), Marks(before);
            IsCastText(q, registry, k, text) &&
            ReadNumbered(Normalized(q.sql, castOf, 0), Outside) ==
            Meant(before, castOf, 0) + (([Param(k + 1)] + PlainTokens(text)) + Meant(after, castOf, k + 1))
  {
    var castOf, k := (k: nat) => PlaceholderCast(q, registry, k), Marks(before);
    text := CastText(castOf(k));
    PlaceholderCastText(q, registry, k);
    NormalizePreservesBinding(before + ([Mark] + after), castOf, 0, Outside);
    MeantAt(before, after, castOf);
  }

  // ---- the operator `?` ----

  lemma {:induction false} OperatorIsUnsafe(
    signs: seq<Sign>, castOf: nat -> Option<Cast>, seen: nat, quote: Quote, i: nat)
    requires i < |signs| && signs[i] == Char('?')
    ensures !Safe(signs, castOf, seen, quote)
  {
    if i == 0 {
    } else {
      var seen' := if signs[0].Mark? then seen + 1 else seen;
      var quote' := if signs[0].Mark? then quote else NextQuote(quote, signs[0].c);
      OperatorIsUnsafe(signs[1..], castOf, seen', quote', i - 1);
    }
  }

  /** No statement that uses the jsonb operator `?`, `?|` or `?&` survives the rewriting. */
  lemma JsonOperatorIsLost(signs: seq<Sign>, castOf: nat -> Option<Cast>, i: nat)
    requires i < |signs| && signs[i] == Char('?')
    ensures ReadNumbered(Normalized(Written(signs), castOf, 0), Outside) != Meant(signs, castOf, 0)
  {
    OperatorIsUnsafe(signs, castOf, 0, Outside, i);
    NormalizePreservesBinding(signs, castOf, 0, Outside);
  }

  lemma {:induction false} NormalizedUnmarked(s: string, castOf: nat -> Option<Cast>, seen: nat)
    requires '?' !in s
    ensures Normalized(s, castOf, seen) == s && CountMarks(s) == 0
  {
    if s == "" {
    } else {
      assert s == [s[0]] + s[1..];
      NormalizedUnmarked(s[1..], castOf, seen);
    }
  }

  lemma OperatorText(before: string, castOf: nat -> Option<Cast>)
    requires '?' !in before
    ensures Normalized(before + "?" + " " + "?" + ")", castOf, 0) ==
            before + Render(0, castOf(0)) + " " + Render(1, castOf(1)) + ")"
  {
    NormalizedUnmarked(before, castOf, 0);
    NormalizedAppend(before, '?', castOf, 0);
    NormalizedAppend(before + "?", ' ', castOf, 0);
    NormalizedAppend(before + "?" + " ", '?', castOf, 0);
    NormalizedAppend(before + "?" + " " + "?", ')', castOf, 0);
  }

  /** The text of a `has_key` filter: the operator's place becomes the parameter that its one bind
      belongs to, and the bind's own place a second parameter that nothing is bound to. */
  lemma HasKeyText(column: string, castOf: nat -> Option<Cast>)
    requires '?' !in column
    ensures Normalized("(" + column + " " + "?" + " " + "?" + ")", castOf, 0) ==
            "(" + column + " " + Render(0, castOf(0)) + " " + Render(1, castOf(1)) + ")"
  {
    OperatorText("(" + column + " ", castOf);
  }

  // ---- the numbering ----

  function Marks(signs: seq<Sign>): nat {
    if signs == [] then 0 else (if signs[0].Mark? then 1 else 0) + Marks(signs[1..])
  }

  function Params(tokens: seq<Token>): seq<nat> {
    if tokens == [] then []
    else if tokens[0].Param? then [tokens[0].index] + Params(tokens[1..])
    else Params(tokens[1..])
  }

  lemma {:induction false} PlainAddsNoParams(s: string, tail: seq<Token>)
    ensures Params(PlainTokens(s) + tail) == Params(tail)
  {
    if s == "" {
      assert PlainTokens(s) + tail == tail;
    } else {
      assert (PlainTokens(s) + tail)[1..] == PlainTokens(s[1..]) + tail;
      PlainAddsNoParams(s[1..], tail);
    }
  }

  lemma BindParams(index: nat, text: string, tail: seq<Token>)
    ensures Params([Param(index)] + PlainTokens(text) + tail) == [index] + Params(tail)
  {
    PlainAddsNoParams(text, tail);
    assert ([Param(index)] + PlainTokens(text) + tail)[1..] == PlainTokens(text) + tail;
  }

  lemma {:induction false} MeantParams(signs: seq<Sign>, castOf: nat -> Option<Cast>, seen: nat)
    ensures var params := Params(Meant(signs, castOf, seen));
            |params| == Marks(signs) && forall i :: 0 <= i < |params| ==> params[i] == seen + i + 1
  {
    if signs == [] {
    } else if signs[0].Mark? {
      MeantParams(signs[1..], castOf, seen + 1);
      BindParams(seen + 1, CastText(castOf(seen)), Meant(signs[1..], castOf, seen + 1));
    } else {
      MeantParams(signs[1..], castOf, seen);
      var tail := Meant(signs[1..], castOf, seen);
      assert ([Plain(signs[0].c)] + tail)[1..] == tail;
    }
  }

  /** The rewritten text of a safe statement holds one parameter per bind, numbered 1, 2, .. from left
      to right. */
  lemma ParametersInOrder(signs: seq<Sign>, castOf: nat -> Option<Cast>)
    requires Safe(signs, castOf, 0, Outside)
    ensures var params := Params(ReadNumbered(Normalized(Written(signs), castOf, 0), Outside));
            |params| == Marks(signs) && forall i :: 0 <= i < |params| ==> params[i] == i + 1
  {
    NormalizePreservesBinding(signs, castOf, 0, Outside);
    MeantParams(signs, castOf, 0);
  }
}
