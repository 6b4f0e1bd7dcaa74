# rand_hostname, modelled in Dafny

This project models the Puppet parser function `rand_hostname(template, max, seed)`.
It is "like `fqdn_rand`", but instead of returning the number it writes the
number over the numeric suffix of a hostname template. Nodes that evaluate the
same manifest then spread over a numbered pool of hosts, and each node always
picks the same one.

What the function does, and what the model does with it:

1. **Index.** The index is 1 when `max` is exactly the string `"1"`. Otherwise
   it is `fqdn_rand(max.to_i - 1, seed).to_i + 1`. This is `Hostname.Index`.
   `fqdn_rand` is the node's seeded generator. It becomes a function-typed
   parameter, `FqdnRand = (int, string) -> string`. Its promise of a draw in
   `[0, bound)` for a positive bound is the predicate `DrawsBelow`. It is a
   hypothesis of the range lemmas and never a precondition of the function.
   `max` is a string or an integer (`MaxArg`), so the integer 1 and the string
   `"01"` fail the test against `"1"`, as they do in Ruby.
2. **Split.** The template is cut with Ruby's `String#split(".")`. `SplitJoin.Fields`
   keeps every field. `SplitJoin.Split` drops the empty fields at the end, as
   Ruby does, so `"a.b."` gives `["a", "b"]` and `""` gives `[]`.
3. **Substitute.** `sub!(/\d+$/, index.to_s)` runs on the first segment. It is
   modelled as the regular expression engine runs it (`DigitSuffix`). The first
   start position is taken where a run of ASCII digits reaches a line end, and
   Ruby's `$` holds at the end of the string and before every newline.
   `IntegerText.IntToS` is `Integer#to_s`. `IntegerText.StrToI` is
   `String#to_i`: leading white space, an optional sign, an optional `0d`/`0D`
   radix prefix, then the leading digits.
4. **Join.** The segments are joined with `"."` (`SplitJoin.Join`). When `split`
   returns no segment, `parts.first` is nil and `sub!` raises `NoMethodError`.
   The model returns `Err(NoMethodError)` in that case.

Three behaviours of the code that a reader might not expect, all modelled as written:
- `max == "1"` rewrites the trailing digits to `"1"`. The template does not come back unchanged.
- A `max` of 1 or below that is not the string `"1"` calls `fqdn_rand` with a bound of 0 or less.
- `to_i` reads a non-numeric `max` as 0. No argument error is raised.

## Model

| member | source | states |
|---|---|---|
| Hostname.Index | lib/puppet/parser/functions/rand_hostname.rb:9-13 | the index is 1 when `max` is the string "1"; otherwise, for `max.to_i >= 2` and an `fqdn_rand` that draws below its bound, it lies in [1, max.to_i - 1] |
| Hostname.MaxToI | lib/puppet/parser/functions/rand_hostname.rb:12 | `max.to_i`: `StrToI` of a string, the integer itself otherwise; its reading of "01" as 1 is stated by `LeadingZeroReadsAsOne` |
| Hostname.IndexSameDraw | lib/puppet/parser/functions/rand_hostname.rb:9-13 | two `fqdn_rand`s that agree on the one draw the code asks for give the same index |
| Hostname.RewriteFirst | lib/puppet/parser/functions/rand_hostname.rb:16 | `sub!(/\d+$/, index.to_s)` on the first segment; what it produces is stated by `RandHostnameRewritesFirstSegment`, `RewrittenFields` and `ExampleRewrite` |
| Hostname.OneSpelledOtherwiseDraws | lib/puppet/parser/functions/rand_hostname.rb:9-12 | the integer 1 and the string "01" are not the string "1": their index is the `fqdn_rand` draw for bound 0, plus 1 |
| Hostname.RandHostname | lib/puppet/parser/functions/rand_hostname.rb:15-17 | the function raises (nil first segment) exactly when the template is empty or made only of dots |
| Hostname.RewrittenFields | lib/puppet/parser/functions/rand_hostname.rb:15-17 | the joined result splits back into exactly the rewritten segments, because the new first segment holds no dot |
| Hostname.RandHostnameKeepsOtherSegments | lib/puppet/parser/functions/rand_hostname.rb:15-17 | every segment after the first comes back unchanged and in order, and the result has as many fields as `split` returned |
| Hostname.RandHostnameRewritesFirstSegment | lib/puppet/parser/functions/rand_hostname.rb:16 | the new first segment is the old one less its maximal trailing digit run, followed by the index's decimal text; a first segment that does not end in a digit is kept, and nothing is raised |
| Hostname.RandHostnameSuffixInRange | lib/puppet/parser/functions/rand_hostname.rb:12-16 | after the kept prefix, the new first segment ends in digits with no leading zero that read back as a number in [1, max.to_i - 1] |
| Hostname.RandHostnameMaxOne | lib/puppet/parser/functions/rand_hostname.rb:9-16 | with `max` "1" the trailing digits become "1" whatever `fqdn_rand` would draw |
| Hostname.RandHostnameKeepsDots | lib/puppet/parser/functions/rand_hostname.rb:15-17 | the result has one dot fewer than `split` returns segments; a template that does not end in a dot keeps exactly its number of dots |
| Hostname.RandHostnameDeterministic | lib/puppet/parser/functions/rand_hostname.rb:9-17 | the result depends on `fqdn_rand` only through the one draw it asks for, and not at all when `max` is "1" |
| Hostname.LeadingZeroReadsAsOne | lib/puppet/parser/functions/rand_hostname.rb:12 | `"01".to_i` is 1 |
| Hostname.MaxOneExample | lib/puppet/parser/functions/rand_hostname.rb:9-17 | "web001.example.com" with `max` "1" becomes "web1.example.com" |
| SplitJoin.Join | lib/puppet/parser/functions/rand_hostname.rb:17 | `parts.join(".")`; its contract with `split` is stated by `JoinFields` and `FieldsOfJoin` |
| SplitJoin.Fields | lib/puppet/parser/functions/rand_hostname.rb:15 | cutting at every dot gives at least one field, and no field holds a dot |
| SplitJoin.JoinFields | lib/puppet/parser/functions/rand_hostname.rb:15-17 | joining the fields with "." gives the string back |
| SplitJoin.FieldsOfJoin | lib/puppet/parser/functions/rand_hostname.rb:15-17 | cutting a join of dot-free segments gives the segments back |
| SplitJoin.FieldsCount | lib/puppet/parser/functions/rand_hostname.rb:15 | there is one more field than there are dots |
| SplitJoin.DropTrailingEmpty | lib/puppet/parser/functions/rand_hostname.rb:15 | the result is the longest prefix whose last field is not empty; every field dropped is empty |
| SplitJoin.Split | lib/puppet/parser/functions/rand_hostname.rb:15 | `split(".")` returns a prefix of the fields, each without a dot |
| SplitJoin.FieldsAllEmpty | lib/puppet/parser/functions/rand_hostname.rb:15 | every field is empty exactly when the string is all dots |
| SplitJoin.LastFieldEmpty | lib/puppet/parser/functions/rand_hostname.rb:15 | the last field is empty exactly when the string is empty or ends in a dot |
| SplitJoin.SplitEmptyIffDotsOnly | lib/puppet/parser/functions/rand_hostname.rb:15-16 | `split` returns no segment exactly when the template is empty or all dots |
| SplitJoin.SplitKeepsAllFieldsWithoutTrailingDot | lib/puppet/parser/functions/rand_hostname.rb:15 | a non-empty template that does not end in a dot loses no field to `split` |
| IntegerText.NatToS | lib/puppet/parser/functions/rand_hostname.rb:16 | `to_s` of a non-negative integer is a non-empty string of digits with no leading zero, except "0" itself |
| IntegerText.IntToS | lib/puppet/parser/functions/rand_hostname.rb:16 | `to_s` starts with "-" exactly for a negative number and is all digits otherwise |
| IntegerText.LeadingDigits | lib/puppet/parser/functions/rand_hostname.rb:12 | `to_i` reads the longest prefix of digits |
| IntegerText.SkipSpace | lib/puppet/parser/functions/rand_hostname.rb:12 | `to_i` skips the leading white space and nothing more: every skipped character is white space, and what is left is a suffix that does not start with white space |
| IntegerText.SkipDecimalPrefix | lib/puppet/parser/functions/rand_hostname.rb:12 | after the sign, `to_i` drops two characters exactly when they are "0d" or "0D", and otherwise keeps the text unchanged |
| IntegerText.StrToI | lib/puppet/parser/functions/rand_hostname.rb:12 | a string without any digit reads as 0 (the silent coercion of a non-numeric `max`) |
| IntegerText.DigitsValueOfNatToS | lib/puppet/parser/functions/rand_hostname.rb:16 | the digits `to_s` writes are worth the number |
| IntegerText.StrToIOfDigits | lib/puppet/parser/functions/rand_hostname.rb:12 | a string made only of digits reads as the number they write, leading zeros included |
| IntegerText.DecimalPrefixReadsDigits | lib/puppet/parser/functions/rand_hostname.rb:12 | `"0d" + digits` and `"0D" + digits` read as the digits' value |
| IntegerText.StrToIOfIntToS | lib/puppet/parser/functions/rand_hostname.rb:12-16 | `i.to_s.to_i == i` for every integer |
| DigitSuffix.DigitRunEnd | lib/puppet/parser/functions/rand_hostname.rb:16 | `\d+` taken greedily from a position ends at the first non-digit or the end |
| DigitSuffix.SubDigitsAtLineEnd | lib/puppet/parser/functions/rand_hostname.rb:16 | `sub!(/\d+$/, repl)`: the first match is replaced, or the string is kept; its result is stated by `SubReplacesTrailingDigits` and `SubKeepsCharacters` |
| DigitSuffix.FirstMatch | lib/puppet/parser/functions/rand_hostname.rb:16 | `sub!` uses the leftmost position where `/\d+$/` matches, and finds none only when no position matches |
| DigitSuffix.StripTrailingDigits | lib/puppet/parser/functions/rand_hostname.rb:16 | the segment less its maximal trailing run of digits: a prefix, followed only by digits, not ending in a digit |
| DigitSuffix.MatchIsMaximalRun | lib/puppet/parser/functions/rand_hostname.rb:16 | the match `sub!` replaces is a whole run: no digit stands just before it |
| DigitSuffix.MatchesOnlyTrailingDigits | lib/puppet/parser/functions/rand_hostname.rb:16 | on a segment without a newline, `/\d+$/` matches at exactly the positions of the trailing digit run |
| DigitSuffix.SubReplacesTrailingDigits | lib/puppet/parser/functions/rand_hostname.rb:16 | on a segment without a newline, `sub!` replaces the maximal trailing digit run and keeps the prefix verbatim; without trailing digits the segment is unchanged |
| DigitSuffix.SubKeepsCharacters | lib/puppet/parser/functions/rand_hostname.rb:16 | `sub!` brings in no character that is in neither the segment nor the replacement, so no dot appears |

## Left out

- The Puppet registration (`newfunction`, `:type`, `:doc`) and the destructuring of `args`. A missing argument (nil) is not modelled: `template` is a string, and `max` is a string or an integer.
- `fqdn_rand` is modelled as always returning a string: an exception raised inside it is not represented. If it raises, for instance for a bound of 0 or below (its implementation is not part of this model), the exception escapes before `split` runs. In the model the call returns some unconstrained string instead, and `RandHostname` returns `Err` only for the nil first segment.
- The internals of `fqdn_rand`: the hash of the node's FQDN and the seed, and the generator. It is a parameter of the model. Its result for a bound of 0 or below, which the code asks for when `max.to_i <= 1` and `max` is not "1", is not constrained.
- Hostname.RandHostnameRewritesFirstSegment: stated only for a first segment without a newline. With a newline, Ruby's `$` also matches before it. `RandHostname` itself models that case, but no lemma describes it.
- Hostname.RandHostnameSuffixInRange: stated only for a first segment without a newline, for the same reason.
- IntegerText.StrToI: does not model the underscores `to_i` accepts between digits (`"1_0".to_i` is 10). It reads only ASCII digits. The `0d`/`0D` radix prefix is modelled (`"0d12".to_i` is 12).
- `sub!` changes the first segment in place. The model computes a new segment list instead. Nothing else holds a reference to that string object, because `split` made it, so no caller can see the difference.
- Strings are sequences of characters. Ruby's encodings are not modelled.
