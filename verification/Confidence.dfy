/**
  The confidence indicator of an AI interaction (ai-layer-service/src/ai/confidence-indicator.ts).

  `JSON.stringify` is a parameter: everything below holds for any serialisation of JSON
  values as text.  The indicator is kept in hundredths, the scale it is rounded to.
 */
module Confidence {
  import opened Basics

  datatype Json =
    | Null
    | Bool(b: bool)
    | Num(value: real)
    | Str(text: string)
    | Arr(items: seq<Json>)
    | Obj(fields: seq<Field>)

  datatype Field = Field(key: string, value: Json)

  predicate IsUntrusted(key: string) {
    key == "reason" || key == "question"
  }

  /** `stripUntrustedFreeText` */
  function Strip(v: Json): Json {
    match v
    case Arr(items) => Arr(seq(|items|, i requires 0 <= i < |items| => Strip(items[i])))
    case Obj(fields) => Obj(seq(|fields|, i requires 0 <= i < |fields| => StripField(fields[i])))
    case _ => v
  }

  function StripField(f: Field): Field {
    Field(f.key, if IsUntrusted(f.key) then Null else Strip(f.value))
  }

  // ----- Groundedness -----

  predicate IsDigit(c: char) {
    '0' <= c <= '9'
  }

  function DigitRun(s: string): (n: nat)
    ensures n <= |s|
  {
    if s == "" || !IsDigit(s[0]) then 0 else 1 + DigitRun(s[1..])
  }

  /** The length of the match of `-?\d+(\.\d+)?` at the start of the text, 0 if there is none. */
  function MatchLength(s: string): (n: nat)
    ensures n <= |s|
  {
    var sign := if s != "" && s[0] == '-' then 1 else 0;
    var whole := DigitRun(s[sign..]);
    if whole == 0 then 0
    else
      var end := sign + whole;
      var fraction := if end < |s| && s[end] == '.' then DigitRun(s[end + 1..]) else 0;
      if fraction == 0 then end else end + 1 + fraction
  }

  /** `text.match(/-?\d+(\.\d+)?/g)`: the leftmost matches, left to right. */
  function Tokens(s: string): seq<string> {
    if s == "" then []
    else if MatchLength(s) > 0 then [s[..MatchLength(s)]] + Tokens(s[MatchLength(s)..])
    else Tokens(s[1..])
  }

  /** `text.includes(token)` */
  predicate Includes(text: string, token: string) {
    token <= text || (text != "" && Includes(text[1..], token))
  }

  function CountIncluded(tokens: seq<string>, context: string): (n: nat)
    ensures n <= |tokens|
  {
    if tokens == [] then 0
    else (if Includes(context, tokens[0]) then 1 else 0) + CountIncluded(tokens[1..], context)
  }

  function Groundedness(output: string, context: string): (g: real)
    ensures 0.0 <= g <= 1.0
  {
    var tokens := Tokens(output);
    if tokens == [] then 0.5 else Ratio(CountIncluded(tokens, context), |tokens|)
  }

  function Ratio(part: nat, whole: nat): (r: real)
    requires part <= whole && whole > 0
    ensures 0.0 <= r <= 1.0
    ensures r == 1.0 <==> part == whole
    ensures r == 0.0 <==> part == 0
  {
    QuotientInRange(part as real, whole as real);
    part as real / whole as real
  }

  lemma QuotientInRange(part: real, whole: real)
    requires 0.0 <= part <= whole && whole > 0.0
    ensures 0.0 <= part / whole <= 1.0
    ensures part / whole == 1.0 <==> part == whole
    ensures part / whole == 0.0 <==> part == 0.0
  {
    var r := part / whole;
    assert r * whole == part;
    assert r < 0.0 ==> r * whole < 0.0;
    assert r > 0.0 ==> r * whole > 0.0;
    assert r > 1.0 ==> (r - 1.0) * whole > 0.0;
    assert r < 1.0 ==> (1.0 - r) * whole > 0.0;
  }

  // ----- The indicator -----

  function Clamp(x: real): real {
    if x < 0.0 then 0.0 else if x > 1.0 then 1.0 else x
  }

  /** `Math.round` */
  function Round(x: real): int {
    (x + 0.5).Floor
  }

  function Indicator(selfReported: real, output: string, context: Json, stringify: Json -> string): (hundredths: int)
    ensures 0 <= hundredths <= 100
  {
    var combined := 0.5 * Clamp(selfReported) + 0.5 * Groundedness(output, stringify(Strip(context)));
    Round(combined * 100.0)
  }

  // ----- Redaction -----

  /** The two values differ at most in what lies beneath untrusted keys. */
  ghost predicate AgreeOutsideUntrusted(a: Json, b: Json) {
    match (a, b)
    case (Arr(xs), Arr(ys)) =>
      |xs| == |ys| && forall i :: 0 <= i < |xs| ==> AgreeOutsideUntrusted(xs[i], ys[i])
    case (Obj(fs), Obj(gs)) =>
      |fs| == |gs| && forall i :: 0 <= i < |fs| ==> FieldsAgree(fs[i], gs[i])
    case _ => !a.Arr? && !a.Obj? && a == b
  }

  ghost predicate FieldsAgree(f: Field, g: Field) {
    f.key == g.key && (f.key == "reason" || f.key == "question" || AgreeOutsideUntrusted(f.value, g.value))
  }

  /** Redaction forgets what lies beneath untrusted keys, at any depth, and nothing else. */
  lemma {:induction false} StripForgetsExactly(a: Json, b: Json)
    ensures Strip(a) == Strip(b) <==> AgreeOutsideUntrusted(a, b)
  {
    match (a, b) {
      case (Arr(xs), Arr(ys)) =>
        if |xs| == |ys| {
          forall i | 0 <= i < |xs|
            ensures Strip(xs[i]) == Strip(ys[i]) <==> AgreeOutsideUntrusted(xs[i], ys[i])
          {
            StripForgetsExactly(xs[i], ys[i]);
          }
          SameArray(xs, ys);
        } else {
          assert |Strip(a).items| != |Strip(b).items|;
        }
      case (Obj(fs), Obj(gs)) =>
        if |fs| == |gs| {
          forall i | 0 <= i < |fs|
            ensures StripField(fs[i]) == StripField(gs[i]) <==> FieldsAgree(fs[i], gs[i])
          {
            StripForgetsExactly(fs[i].value, gs[i].value);
          }
          SameObject(fs, gs);
        } else {
          assert |Strip(a).fields| != |Strip(b).fields|;
        }
      case _ =>
    }
  }

  lemma SameArray(xs: seq<Json>, ys: seq<Json>)
    requires |xs| == |ys|
    ensures Strip(Arr(xs)) == Strip(Arr(ys)) <==> forall i :: 0 <= i < |xs| ==> Strip(xs[i]) == Strip(ys[i])
  {
    var ss, ts := Strip(Arr(xs)).items, Strip(Arr(ys)).items;
    assert forall i :: 0 <= i < |xs| ==> ss[i] == Strip(xs[i]) && ts[i] == Strip(ys[i]);
    assert ss == ts <==> forall i :: 0 <= i < |ss| ==> ss[i] == ts[i];
  }

  lemma SameObject(fs: seq<Field>, gs: seq<Field>)
    requires |fs| == |gs|
    ensures Strip(Obj(fs)) == Strip(Obj(gs)) <==> forall i :: 0 <= i < |fs| ==> StripField(fs[i]) == StripField(gs[i])
  {
    var ss, ts := Strip(Obj(fs)).fields, Strip(Obj(gs)).fields;
    assert forall i :: 0 <= i < |fs| ==> ss[i] == StripField(fs[i]) && ts[i] == StripField(gs[i]);
    assert ss == ts <==> forall i :: 0 <= i < |ss| ==> ss[i] == ts[i];
  }

  /** A value agrees with its own redaction; so redacting twice is redacting once. */
  lemma {:induction false} StripIsIdempotent(v: Json)
    ensures Strip(Strip(v)) == Strip(v)
  {
    match v {
      case Arr(items) =>
        forall i | 0 <= i < |items|
          ensures Strip(Strip(items[i])) == Strip(items[i])
        {
          StripIsIdempotent(items[i]);
        }
        SameArray(Strip(v).items, items);
      case Obj(fields) =>
        forall i | 0 <= i < |fields|
          ensures StripField(StripField(fields[i])) == StripField(fields[i])
        {
          StripIsIdempotent(fields[i].value);
        }
        SameObject(Strip(v).fields, fields);
      case _ =>
    }
  }

  /** No untrusted key, at any depth, has a value. */
  ghost predicate IsRedacted(v: Json) {
    match v
    case Arr(items) => forall i :: 0 <= i < |items| ==> IsRedacted(items[i])
    case Obj(fields) => forall i :: 0 <= i < |fields| ==> IsRedactedField(fields[i])
    case _ => true
  }

  ghost predicate IsRedactedField(f: Field) {
    if f.key == "reason" || f.key == "question" then f.value == Null else IsRedacted(f.value)
  }

  lemma {:induction false} StrippedIsRedacted(v: Json)
    ensures IsRedacted(Strip(v))
  {
    match v {
      case Arr(items) =>
        forall i | 0 <= i < |items|
          ensures IsRedacted(Strip(v).items[i])
        {
          StrippedIsRedacted(items[i]);
        }
      case Obj(fields) =>
        forall i | 0 <= i < |fields|
          ensures IsRedactedField(Strip(v).fields[i])
        {
          StrippedIsRedacted(fields[i].value);
        }
      case _ =>
    }
  }

  /** What redaction leaves: the same value but for what lies beneath untrusted keys, which is null. */
  lemma StripRedacts(v: Json)
    ensures AgreeOutsideUntrusted(v, Strip(v)) && IsRedacted(Strip(v))
  {
    StripIsIdempotent(v);
    StripForgetsExactly(v, Strip(v));
    StrippedIsRedacted(v);
  }

  /** Free text a tenant's user wrote cannot move the indicator, whatever the model says. */
  lemma UntrustedTextIsPowerless(a: Json, b: Json, selfReported: real, output: string, stringify: Json -> string)
    requires AgreeOutsideUntrusted(a, b)
    ensures Indicator(selfReported, output, a, stringify) == Indicator(selfReported, output, b, stringify)
  {
    StripForgetsExactly(a, b);
  }

  // ----- What the groundedness check looks at -----

  function Digits(s: string): string {
    if s == "" then "" else (if '0' <= s[0] <= '9' then [s[0]] else "") + Digits(s[1..])
  }

  function Concat(tokens: seq<string>): string {
    if tokens == [] then "" else tokens[0] + Concat(tokens[1..])
  }

  lemma DigitsOfOne(c: char)
    ensures Digits([c]) == if c in "0123456789" then [c] else ""
  {
    assert [c][1..] == "";
  }

  lemma {:induction false} DigitsAppend(s: string, t: string)
    ensures Digits(s + t) == Digits(s) + Digits(t)
  {
    if s == "" {
      assert s + t == t;
    } else {
      var head := if IsDigit(s[0]) then [s[0]] else "";
      assert (s + t)[1..] == s[1..] + t;
      DigitsAppend(s[1..], t);
      Regroup(head, Digits(s[1..]), Digits(t));
    }
  }

  lemma Regroup(a: string, b: string, c: string)
    ensures a + (b + c) == (a + b) + c
  {
  }

  /** No digit of the model's text escapes the check: the tokens hold them all, in order. */
  lemma {:induction false} EveryDigitIsChecked(s: string)
    ensures Digits(Concat(Tokens(s))) == Digits(s)
  {
    if s != "" {
      var n := MatchLength(s);
      if n > 0 {
        EveryDigitIsChecked(s[n..]);
        assert s == s[..n] + s[n..];
        DigitsAppend(s[..n], s[n..]);
        assert Tokens(s)[1..] == Tokens(s[n..]);
        DigitsAppend(s[..n], Concat(Tokens(s[n..])));
      } else {
        EveryDigitIsChecked(s[1..]);
        NoMatchNoDigit(s);
      }
    }
  }

  lemma NoMatchNoDigit(s: string)
    requires s != "" && MatchLength(s) == 0
    ensures !IsDigit(s[0])
  {
  }

  predicate AllDigits(s: string) {
    s != "" && forall i :: 0 <= i < |s| ==> '0' <= s[i] <= '9'
  }

  /** What the pattern means: an optional sign, digits, and optionally a point and more digits. */
  ghost predicate IsNumeral(t: string) {
    var body := if "-" <= t then t[1..] else t;
    AllDigits(body) || exists k :: 0 < k < |body| && body[k] == '.' && AllDigits(body[..k]) && AllDigits(body[k + 1..])
  }

  lemma {:induction false} DigitRunIsDigits(s: string)
    ensures forall i :: 0 <= i < DigitRun(s) ==> IsDigit(s[i])
    ensures DigitRun(s) < |s| ==> !IsDigit(s[DigitRun(s)])
  {
    if s != "" && IsDigit(s[0]) {
      DigitRunIsDigits(s[1..]);
    }
  }

  lemma MatchIsNumeral(s: string)
    requires MatchLength(s) > 0
    ensures IsNumeral(s[..MatchLength(s)])
  {
    var sign := if s != "" && s[0] == '-' then 1 else 0;
    var rest := s[sign..];
    var whole := DigitRun(rest);
    RunIsAllDigits(rest);
    var t := s[..MatchLength(s)];
    var body := rest[..MatchLength(s) - sign];
    WithoutSign(s, MatchLength(s));
    if MatchLength(s) > sign + whole {
      RunIsAllDigits(rest[whole + 1..]);
      DigitsAround(rest, whole, DigitRun(rest[whole + 1..]));
      assert body[whole] == '.' && AllDigits(body[..whole]) && AllDigits(body[whole + 1..]);
    } else {
      assert AllDigits(body);
    }
  }

  lemma WithoutSign(s: string, n: nat)
    requires 0 < n <= |s|
    ensures (if s[0] == '-' then s[1..][..n - 1] else s[..n]) == (if "-" <= s[..n] then s[..n][1..] else s[..n])
    ensures s[0] != '-' ==> s[0..] == s
  {
    assert "-" <= s[..n] <==> s[0] == '-';
  }

  /** Digits, one more character, and digits again. */
  lemma DigitsAround(rest: string, w: nat, n: nat)
    requires w + 1 + n <= |rest| && AllDigits(rest[..w]) && AllDigits(rest[w + 1..][..n])
    ensures var body := rest[..w + 1 + n];
            body[w] == rest[w] && AllDigits(body[..w]) && AllDigits(body[w + 1..])
  {
    var body := rest[..w + 1 + n];
    assert body[..w] == rest[..w];
    assert body[w + 1..] == rest[w + 1..][..n];
  }

  lemma RunIsAllDigits(s: string)
    requires DigitRun(s) > 0
    ensures AllDigits(s[..DigitRun(s)])
  {
    DigitRunIsDigits(s);
  }

  lemma {:induction false} RunIsLongest(s: string, n: nat)
    requires n <= |s| && forall i :: 0 <= i < n ==> IsDigit(s[i])
    ensures n <= DigitRun(s)
  {
    if n > 0 {
      assert IsDigit(s[0]);
      RunIsLongest(s[1..], n - 1);
    }
  }

  lemma RunAtLeast(s: string, n: nat)
    requires n <= |s| && AllDigits(s[..n])
    ensures 0 < n <= DigitRun(s)
  {
    forall i | 0 <= i < n
      ensures IsDigit(s[i])
    {
      assert s[..n][i] == s[i];
    }
    RunIsLongest(s, n);
  }

  /** A point at index `k`, and `n` digits or more behind it. */
  predicate HasFraction(s: string, k: nat, n: int) {
    k < |s| && s[k] == '.' && 0 < n <= DigitRun(s[k + 1..])
  }

  /** Without a sign: a numeral at the start of a text is no longer than the digits and fraction there. */
  lemma UnsignedIsLongest(rest: string, n: nat)
    requires n <= |rest|
    requires var body := rest[..n];
             AllDigits(body)
             || exists k :: 0 < k < |body| && body[k] == '.' && AllDigits(body[..k]) && AllDigits(body[k + 1..])
    ensures var whole := DigitRun(rest);
            && whole > 0
            && (n <= whole || HasFraction(rest, whole, n - whole - 1))
  {
    var body := rest[..n];
    if AllDigits(body) {
      RunAtLeast(rest, n);
    } else {
      var k :| 0 < k < |body| && body[k] == '.' && AllDigits(body[..k]) && AllDigits(body[k + 1..]);
      assert body[..k] == rest[..k];
      assert body[k + 1..] == rest[k + 1..][..n - k - 1];
      FractionIsLongest(rest, k, n - k - 1);
    }
  }

  lemma FractionIsLongest(rest: string, k: nat, n: nat)
    requires k + 1 + n <= |rest| && rest[k] == '.' && AllDigits(rest[..k]) && AllDigits(rest[k + 1..][..n])
    ensures DigitRun(rest) == k > 0 && HasFraction(rest, k, n)
  {
    RunAtLeast(rest, k);
    RunStopsAtPoint(rest, k);
    RunAtLeast(rest[k + 1..], n);
  }

  lemma RunStopsAtPoint(s: string, k: nat)
    requires k < |s| && s[k] == '.' && k <= DigitRun(s)
    ensures DigitRun(s) == k
  {
    DigitRunIsDigits(s);
  }

  /** A match is the longest numeral that the text begins with; there is none exactly if it begins with none. */
  lemma MatchIsLongest(s: string, n: nat)
    requires n <= |s| && IsNumeral(s[..n])
    ensures 0 < n <= MatchLength(s)
  {
    WithoutSign(s, n);
    if s[0] == '-' {
      UnsignedIsLongest(s[1..], n - 1);
      MatchCovers(s, 1, n);
    } else {
      UnsignedIsLongest(s, n);
      assert s[0..] == s;
      MatchCovers(s, 0, n);
    }
  }

  lemma MatchCovers(s: string, sign: nat, n: nat)
    requires s != "" && sign == (if s[0] == '-' then 1 else 0) && sign < n
    requires var rest := s[sign..];
             var whole := DigitRun(rest);
             && whole > 0
             && (n - sign <= whole || HasFraction(rest, whole, n - sign - whole - 1))
    ensures n <= MatchLength(s)
  {
    var rest := s[sign..];
    var whole := DigitRun(rest);
    if whole < |rest| {
      assert rest[whole + 1..] == s[sign + whole + 1..] && rest[whole] == s[sign + whole];
    }
  }

  /**
    The tokens are the leftmost longest numerals: if the text begins with one, the longest
    such comes first and the rest are those of what follows; if not, its first character
    is passed over.
   */
  lemma TokensAreLeftmostLongest(s: string)
    requires s != ""
    ensures if exists n :: 0 < n <= |s| && IsNumeral(s[..n])
            then exists n :: && 0 < n <= |s| && IsNumeral(s[..n])
                             && (forall m :: n < m <= |s| ==> !IsNumeral(s[..m]))
                             && Tokens(s) == [s[..n]] + Tokens(s[n..])
            else Tokens(s) == Tokens(s[1..])
  {
    var n := MatchLength(s);
    forall m | 0 < m <= |s| && IsNumeral(s[..m])
      ensures m <= n
    {
      MatchIsLongest(s, m);
    }
    if n > 0 {
      MatchIsNumeral(s);
      assert Tokens(s) == [s[..n]] + Tokens(s[n..]);
    }
  }

  /** Each thing checked is one whole numeral. */
  lemma {:induction false} TokensAreNumerals(s: string)
    ensures forall i :: 0 <= i < |Tokens(s)| ==> IsNumeral(Tokens(s)[i])
  {
    if s != "" {
      var n := MatchLength(s);
      if n > 0 {
        MatchIsNumeral(s);
        TokensAreNumerals(s[n..]);
      } else {
        TokensAreNumerals(s[1..]);
      }
    }
  }

  lemma {:induction false} CountIncludedIsExact(tokens: seq<string>, context: string)
    ensures CountIncluded(tokens, context) == |tokens|
            <==> forall i :: 0 <= i < |tokens| ==> Includes(context, tokens[i])
    ensures CountIncluded(tokens, context) == 0 <==> forall i :: 0 <= i < |tokens| ==> !Includes(context, tokens[i])
  {
    if tokens != [] {
      var rest := tokens[1..];
      CountIncludedIsExact(rest, context);
      assert forall i :: 0 < i < |tokens| ==> tokens[i] == rest[i - 1];
      assert forall i :: 0 <= i < |rest| ==> rest[i] == tokens[i + 1];
    }
  }

  /** Full credit means that every figure in the text is in the context, no credit that none is. */
  lemma GroundednessExtremes(output: string, context: string)
    requires Tokens(output) != []
    ensures Groundedness(output, context) == 1.0 <==>
            forall i :: 0 <= i < |Tokens(output)| ==> Includes(context, Tokens(output)[i])
    ensures Groundedness(output, context) == 0.0 <==>
            forall i :: 0 <= i < |Tokens(output)| ==> !Includes(context, Tokens(output)[i])
  {
    CountIncludedIsExact(Tokens(output), context);
  }

  // ----- The formula -----

  ghost predicate OccursAt(text: string, token: string, k: int) {
    0 <= k <= |text| - |token| && text[k..k + |token|] == token
  }

  ghost predicate Occurs(text: string, token: string) {
    exists k :: OccursAt(text, token, k)
  }

  lemma {:induction false} IncludesIsOccurrence(text: string, token: string)
    ensures Includes(text, token) <==> Occurs(text, token)
  {
    if token <= text {
      assert OccursAt(text, token, 0);
    } else if text != "" {
      IncludesIsOccurrence(text[1..], token);
      if k :| OccursAt(text, token, k) {
        assert k != 0;
        assert OccursAt(text[1..], token, k - 1);
      }
      if k :| OccursAt(text[1..], token, k) {
        assert OccursAt(text, token, k + 1);
      }
    }
  }

  lemma {:induction false} IncludedIsNumber(tokens: seq<string>, context: string)
    ensures CountIncluded(tokens, context) ==
            Number(|tokens|, (i: int) => 0 <= i < |tokens| && Includes(context, tokens[i]))
  {
    if tokens != [] {
      var rest := tokens[1..];
      IncludedIsNumber(rest, context);
      NumberFromOne(|rest|, (i: int) => 0 <= i < |tokens| && Includes(context, tokens[i]),
                    (i: int) => 0 <= i < |rest| && Includes(context, rest[i]));
    }
  }

  /** The tokens, by index, that occur in the context. */
  ghost function Occurring(tokens: seq<string>, context: string): set<int> {
    set i | 0 <= i < |tokens| && Occurs(context, tokens[i])
  }

  lemma IncludedAreOccurring(tokens: seq<string>, context: string)
    ensures CountIncluded(tokens, context) == |Occurring(tokens, context)|
  {
    var has := (i: int) => 0 <= i < |tokens| && Includes(context, tokens[i]);
    IncludedIsNumber(tokens, context);
    NumberIsCardinality(|tokens|, has);
    forall i | 0 <= i < |tokens|
      ensures has(i) <==> Occurs(context, tokens[i])
    {
      IncludesIsOccurrence(context, tokens[i]);
    }
    assert (set i | 0 <= i < |tokens| && has(i)) == Occurring(tokens, context);
  }

  /**
    The whole formula, in hundredths: half of it is the model's own confidence, cut off at 0
    and 1, and half the share of the figures that occur in the redacted context, a share of
    one half if there are no figures; rounded to the nearest hundredth, halves up.
   */
  lemma IndicatorIsExact(selfReported: real, output: string, context: Json, stringify: Json -> string)
    ensures var tokens, text := Tokens(output), stringify(Strip(context));
            var own := if selfReported < 0.0 then 0.0 else if selfReported > 1.0 then 1.0 else selfReported;
            var grounded := if tokens == [] then 0.5 else |Occurring(tokens, text)| as real / |tokens| as real;
            var h := Indicator(selfReported, output, context, stringify) as real;
            h - 0.5 <= 50.0 * own + 50.0 * grounded < h + 0.5
  {
    IncludedAreOccurring(Tokens(output), stringify(Strip(context)));
  }
}
