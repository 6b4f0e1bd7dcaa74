/**
 The Puppet function `rand_hostname(template, max, seed)`: like
 `fqdn_rand`, but instead of returning the number it writes it over the
 numeric suffix of the first label of a hostname template.

 The index is 1 when `max` is the string "1"; otherwise it is
 `fqdn_rand(max.to_i - 1, seed).to_i + 1`. The template is split on dots,
 the trailing digits of the first segment are replaced by the index's
 decimal text, and the segments are joined again.
 */
module Hostname {
  import opened SplitJoin
  import opened IntegerText
  import opened DigitSuffix

  /** The `max` argument as the manifest passes it: a string or an integer.
      Only the string "1" equals "1"; the integer 1 does not. */
  datatype MaxArg = Str(text: string) | Int(number: int)

  /** `max.to_i` */
  function MaxToI(max: MaxArg): int
  {
    match max
    case Str(t) => StrToI(t)
    case Int(n) => n
  }

  /** The node's `fqdn_rand(bound, seed)`: a seeded, deterministic draw whose
      result the function reads back with `to_i`. Its internals (a hash of
      the node's FQDN and the seed) are outside this model. */
  type FqdnRand = (int, string) -> string

  /** What `fqdn_rand` promises for a positive bound: a number in [0, bound). */
  predicate DrawsBelow(fqdnRand: FqdnRand, bound: int, seed: string)
  {
    0 < bound ==> 0 <= StrToI(fqdnRand(bound, seed)) < bound
  }

  /** `parts.first.sub!` on an empty array: `first` is nil, which has no `sub!`. */
  datatype Error = NoMethodError

  datatype Result<T> = Ok(value: T) | Err(error: Error)

  /** The index written into the hostname. */
  function Index(max: MaxArg, seed: string, fqdnRand: FqdnRand): (index: int)
    ensures max == Str("1") ==> index == 1
    ensures max != Str("1") && MaxToI(max) >= 2 && DrawsBelow(fqdnRand, MaxToI(max) - 1, seed)
            ==> 1 <= index <= MaxToI(max) - 1
  {
    if max == Str("1") then 1
    else StrToI(fqdnRand(MaxToI(max) - 1, seed)) + 1
  }

  /** The first segment after `sub!(/\d+$/, index.to_s)`. */
  function RewriteFirst(segment: string, index: int): string
  {
    SubDigitsAtLineEnd(segment, IntToS(index))
  }

  /** `rand_hostname(template, max, seed)` evaluated on a node whose
      `fqdn_rand` is `fqdnRand`. It raises exactly when `split` leaves no
      segment, that is when the template is empty or made only of dots. */
  function RandHostname(template: string, max: MaxArg, seed: string, fqdnRand: FqdnRand): (r: Result<string>)
    ensures r.Err? <==> (forall k :: 0 <= k < |template| ==> template[k] == Dot)
  {
    SplitEmptyIffDotsOnly(template);
    var parts := Split(template);
    if |parts| == 0 then Err(NoMethodError)
    else Ok(Join(parts[0 := RewriteFirst(parts[0], Index(max, seed, fqdnRand))]))
  }

  /** The rewritten segments are the results' fields: the new first
      segment holds no dot. */
  lemma {:induction false} RewrittenFields(template: string, index: int)
    requires Split(template) != []
    ensures var parts := Split(template);
            Fields(Join(parts[0 := RewriteFirst(parts[0], index)]))
            == parts[0 := RewriteFirst(parts[0], index)]
  {
    var parts := Split(template);
    var text := IntToS(index);
    assert Dot !in text by {
      assert text[0] == '-' || IsDigit(text[0]);
      assert forall k :: 1 <= k < |text| ==> IsDigit(text[k]) by {
        if index < 0 { assert forall k :: 1 <= k < |text| ==> text[k] == NatToS(-index)[k - 1]; }
      }
    }
    SubKeepsCharacters(parts[0], text, Dot);
    FieldsOfJoin(parts[0 := RewriteFirst(parts[0], index)]);
  }

  /** Every segment after the first comes back unchanged and in order, and
      the result has as many dot-separated fields as `split` returned. */
  lemma RandHostnameKeepsOtherSegments(template: string, max: MaxArg, seed: string, fqdnRand: FqdnRand)
    requires Split(template) != []
    ensures var r := RandHostname(template, max, seed, fqdnRand);
            r.Ok?
            && |Fields(r.value)| == |Split(template)|
            && Fields(r.value)[1..] == Split(template)[1..]
            && Fields(r.value)[1..] == Fields(template)[1..|Split(template)|]
  {
    var parts := Split(template);
    RewrittenFields(template, Index(max, seed, fqdnRand));
    assert parts[1..] == Fields(template)[1..|parts|];
  }

  /** The first segment: the text before the first dot, less its trailing
      digits, followed by the index's decimal text; a first segment that does
      not end in a digit is kept as it is, and nothing is raised. */
  lemma RandHostnameRewritesFirstSegment(template: string, max: MaxArg, seed: string, fqdnRand: FqdnRand)
    requires Split(template) != []
    requires '\n' !in Fields(template)[0]
    ensures var r := RandHostname(template, max, seed, fqdnRand);
            var first := Fields(template)[0];
            r.Ok?
            && Fields(r.value)[0]
               == if EndsInDigit(first)
                  then StripTrailingDigits(first) + IntToS(Index(max, seed, fqdnRand))
                  else first
  {
    var index := Index(max, seed, fqdnRand);
    RewrittenFields(template, index);
    SubReplacesTrailingDigits(Fields(template)[0], IntToS(index));
  }

  /** With `max` at least 2 and `fqdn_rand` drawing below its bound, the
      digits that end the new first segment read back as a number in
      [1, max - 1], written without leading zeros. */
  lemma RandHostnameSuffixInRange(template: string, max: MaxArg, seed: string, fqdnRand: FqdnRand)
    requires Split(template) != []
    requires '\n' !in Fields(template)[0]
    requires EndsInDigit(Fields(template)[0])
    requires max != Str("1") && MaxToI(max) >= 2
    requires DrawsBelow(fqdnRand, MaxToI(max) - 1, seed)
    ensures var r := RandHostname(template, max, seed, fqdnRand);
            var prefix := StripTrailingDigits(Fields(template)[0]);
            r.Ok? && |prefix| < |Fields(r.value)[0]| && Fields(r.value)[0][..|prefix|] == prefix
            && var suffix := Fields(r.value)[0][|prefix|..];
               AllDigits(suffix) && suffix[0] != '0' && 1 <= StrToI(suffix) <= MaxToI(max) - 1
  {
    var index := Index(max, seed, fqdnRand);
    var prefix := StripTrailingDigits(Fields(template)[0]);
    RandHostnameRewritesFirstSegment(template, max, seed, fqdnRand);
    var r := RandHostname(template, max, seed, fqdnRand);
    assert Fields(r.value)[0][|prefix|..] == IntToS(index);
    StrToIOfIntToS(index);
  }

  /** With `max` equal to the string "1" the index is 1 whatever `fqdn_rand`
      would draw, and the trailing digits are still rewritten, to "1". */
  lemma RandHostnameMaxOne(template: string, seed: string, fqdnRand: FqdnRand)
    requires Split(template) != []
    requires '\n' !in Fields(template)[0]
    requires EndsInDigit(Fields(template)[0])
    ensures var r := RandHostname(template, Str("1"), seed, fqdnRand);
            r.Ok? && Fields(r.value)[0] == StripTrailingDigits(Fields(template)[0]) + "1"
  {
    RandHostnameRewritesFirstSegment(template, Str("1"), seed, fqdnRand);
    assert IntToS(1) == "1";
  }

  /** "01".to_i is 1. */
  lemma LeadingZeroReadsAsOne(t: string)
    requires t == "01"
    ensures StrToI(t) == 1
  {
    StrToIOfDigits(t);
    assert DigitsValue(t) == 1 by {
      assert t[..1] == "0";
      assert "0"[..0] == "";
    }
  }

  /** The test is string equality: the integer 1 and the string "01" both
      read as 1 but take the `fqdn_rand` branch, with bound 0. */
  lemma OneSpelledOtherwiseDraws(max: MaxArg, seed: string, fqdnRand: FqdnRand)
    requires max == Int(1) || max == Str("01")
    ensures Index(max, seed, fqdnRand) == StrToI(fqdnRand(0, seed)) + 1
  {
    assert max != Str("1") by {
      if max.Str? { assert |max.text| == 2; }
    }
    assert MaxToI(max) == 1 by {
      if max.Str? { LeadingZeroReadsAsOne(max.text); }
    }
  }

  /** A template that does not end in a dot keeps all its dots; one that
      does loses the dots of the empty fields `split` drops. */
  lemma RandHostnameKeepsDots(template: string, max: MaxArg, seed: string, fqdnRand: FqdnRand)
    requires Split(template) != []
    ensures var r := RandHostname(template, max, seed, fqdnRand);
            r.Ok?
            && multiset(r.value)[Dot] == |Split(template)| - 1
            && (template[|template| - 1] != Dot ==> multiset(r.value)[Dot] == multiset(template)[Dot])
  {
    var r := RandHostname(template, max, seed, fqdnRand);
    RandHostnameKeepsOtherSegments(template, max, seed, fqdnRand);
    FieldsCount(r.value);
    FieldsCount(template);
    if template[|template| - 1] != Dot {
      SplitKeepsAllFieldsWithoutTrailingDot(template);
    }
  }

  /** The result depends on `fqdn_rand` only through the one draw it asks
      for, and not at all when `max` is "1": the same template, `max`, seed
      and draw give the same hostname on every evaluation. */
  lemma RandHostnameDeterministic(template: string, max: MaxArg, seed: string, f: FqdnRand, g: FqdnRand)
    requires max == Str("1") || f(MaxToI(max) - 1, seed) == g(MaxToI(max) - 1, seed)
    ensures RandHostname(template, max, seed, f) == RandHostname(template, max, seed, g)
  {
    IndexSameDraw(max, seed, f, g);
  }

  /** Two generators that agree on the one draw give the same index. */
  lemma IndexSameDraw(max: MaxArg, seed: string, f: FqdnRand, g: FqdnRand)
    requires max == Str("1") || f(MaxToI(max) - 1, seed) == g(MaxToI(max) - 1, seed)
    ensures Index(max, seed, f) == Index(max, seed, g)
  {
  }

  /** How `split` cuts the example template. */
  lemma ExampleSplit(template: string)
    requires template == "web001.example.com"
    ensures Split(template) == ["web001", "example", "com"]
  {
    var parts := ["web001", "example", "com"];
    assert Join(parts) == template;
    FieldsOfJoin(parts);
    SplitKeepsAllFieldsWithoutTrailingDot(template);
  }

  /** The example's first segment, rewritten with index 1. */
  lemma ExampleRewrite()
    ensures RewriteFirst("web001", 1) == "web1"
  {
    assert StripTrailingDigits("web001") == "web" by {
      assert "web001"[..5] == "web00" && "web00"[..4] == "web0" && "web0"[..3] == "web";
    }
    SubReplacesTrailingDigits("web001", "1");
    assert IntToS(1) == "1";
  }

  /** How the example's segments join again. */
  lemma ExampleJoin()
    ensures Join(["web1", "example", "com"]) == "web1.example.com"
  {
  }

  /** "web001.example.com" with `max` "1" becomes "web1.example.com". */
  lemma MaxOneExample(template: string, seed: string, fqdnRand: FqdnRand)
    requires template == "web001.example.com"
    ensures RandHostname(template, Str("1"), seed, fqdnRand) == Ok("web1.example.com")
  {
    ExampleRewrite();
    ExampleSplit(template);
    ExampleJoin();
    assert Split(template)[0 := "web1"] == ["web1", "example", "com"];
  }
}
