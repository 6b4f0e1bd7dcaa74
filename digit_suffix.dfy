/**
 `segment.sub!(/\d+$/, text)`: Ruby's first-match substitution of the
 regular expression "one or more decimal digits, then end of line".

 In a Ruby regular expression `\d` is an ASCII digit and `$` matches at the
 end of the string and also just before every newline. The engine tries the
 start positions from left to right; from each it takes digits greedily and
 gives them back one at a time until `$` holds. `sub!` replaces the first
 match it finds and leaves the string alone when there is none.
 */
module DigitSuffix {
  import opened IntegerText

  datatype Option<T> = None | Some(value: T)

  /** End of the run of digits that starts at `i`. */
  function DigitRunEnd(s: string, i: nat): (k: nat)
    requires i <= |s|
    ensures i <= k <= |s|
    ensures forall j :: i <= j < k ==> IsDigit(s[j])
    ensures k == |s| || !IsDigit(s[k])
    decreases |s| - i
  {
    if i < |s| && IsDigit(s[i]) then DigitRunEnd(s, i + 1) else i
  }

  /** Where `$` holds: the end of the string or just before a newline. */
  predicate AtLineEnd(s: string, k: nat)
    requires k <= |s|
  {
    k == |s| || s[k] == '\n'
  }

  /** `/\d+$/` matches starting at `i`. Inside a run of digits `$` cannot
      hold (a digit is not a newline), so giving digits back never helps:
      the match exists exactly when the whole run ends a line. */
  predicate MatchesAt(s: string, i: nat)
    requires i < |s|
  {
    IsDigit(s[i]) && AtLineEnd(s, DigitRunEnd(s, i))
  }

  /** The leftmost start position at or after `from` where the pattern matches. */
  function FirstMatch(s: string, from: nat): (m: Option<nat>)
    requires from <= |s|
    ensures m.Some? ==> from <= m.value < |s| && MatchesAt(s, m.value)
    ensures m.Some? ==> forall j :: from <= j < m.value ==> !MatchesAt(s, j)
    ensures m.None? ==> forall j :: from <= j < |s| ==> !MatchesAt(s, j)
    decreases |s| - from
  {
    if from == |s| then None
    else if MatchesAt(s, from) then Some(from)
    else FirstMatch(s, from + 1)
  }

  /** `s.sub(/\d+$/, repl)`: the first match replaced by `repl`, or `s` itself. */
  function SubDigitsAtLineEnd(s: string, repl: string): (r: string)
  {
    match FirstMatch(s, 0)
    case None => s
    case Some(i) => s[..i] + repl + s[DigitRunEnd(s, i)..]
  }

  /** The string less its maximal run of trailing digits. */
  function StripTrailingDigits(s: string): (p: string)
    ensures |p| <= |s| && p == s[..|p|]
    ensures forall j :: |p| <= j < |s| ==> IsDigit(s[j])
    ensures |p| == 0 || !IsDigit(p[|p| - 1])
  {
    if |s| > 0 && IsDigit(s[|s| - 1]) then StripTrailingDigits(s[..|s| - 1]) else s
  }

  predicate EndsInDigit(s: string)
  {
    |s| > 0 && IsDigit(s[|s| - 1])
  }

  /** The match found is a maximal run: no digit stands just before it. */
  lemma MatchIsMaximalRun(s: string)
    requires FirstMatch(s, 0).Some?
    ensures var i := FirstMatch(s, 0).value; i == 0 || !IsDigit(s[i - 1])
  {
    var i := FirstMatch(s, 0).value;
    if i > 0 {
      assert !MatchesAt(s, i - 1);
      assert i - 1 < |s|;
    }
  }

  /** On a line (no newline), `/\d+$/` matches exactly inside the trailing digit run. */
  lemma MatchesOnlyTrailingDigits(s: string, i: nat)
    requires '\n' !in s
    requires i < |s|
    ensures MatchesAt(s, i) <==> |StripTrailingDigits(s)| <= i
  {
    var p := |StripTrailingDigits(s)|;
    var k := DigitRunEnd(s, i);
    if p <= i {
      assert k == |s|;
    } else if IsDigit(s[i]) {
      assert s[..p][p - 1] == s[p - 1];
      assert !IsDigit(s[p - 1]);
      assert k < |s|;
      assert s[k] in s;
    }
  }

  /** On a line, `sub!(/\d+$/, repl)` puts `repl` in place of the maximal run
      of trailing digits, keeping everything before it; a string that does not
      end in a digit is returned unchanged. */
  lemma SubReplacesTrailingDigits(s: string, repl: string)
    requires '\n' !in s
    ensures SubDigitsAtLineEnd(s, repl)
         == if EndsInDigit(s) then StripTrailingDigits(s) + repl else s
  {
    var p := |StripTrailingDigits(s)|;
    var m := FirstMatch(s, 0);
    forall j | 0 <= j < |s|
      ensures MatchesAt(s, j) <==> p <= j
    {
      MatchesOnlyTrailingDigits(s, j);
    }
    if EndsInDigit(s) {
      assert p < |s|;
      assert MatchesAt(s, p);
      assert m.Some? && m.value == p;
      assert DigitRunEnd(s, p) == |s|;
      assert s[|s|..] == "";
    } else {
      assert p == |s|;
      assert m.None?;
    }
  }

  /** The substitution brings in no character that is in neither `s` nor `repl`. */
  lemma SubKeepsCharacters(s: string, repl: string, c: char)
    requires c !in s && c !in repl
    ensures c !in SubDigitsAtLineEnd(s, repl)
  {
    match FirstMatch(s, 0)
    case None =>
    case Some(i) =>
      var k := DigitRunEnd(s, i);
      assert c !in s[..i] by { assert forall x :: x in s[..i] ==> x in s; }
      assert c !in s[k..] by { assert forall x :: x in s[k..] ==> x in s; }
  }
}
