/**
 Ruby's `String#split(".")` and `Array#join(".")` on hostname templates.

 `Fields` cuts a string at every dot and keeps every field, empty ones
 included; `Split` is what Ruby returns: the same fields less the empty
 fields at the end ("a.b.".split(".") is ["a", "b"], "".split(".") is []).
 */
module SplitJoin {

  const Dot: char := '.'

  /** `parts.join(".")`; the empty array joins to the empty string. */
  function Join(parts: seq<string>): string
  {
    if |parts| == 0 then ""
    else if |parts| == 1 then parts[0]
    else parts[0] + [Dot] + Join(parts[1..])
  }

  /** Every field between dots, none of them holding a dot. */
  function Fields(s: string): (fs: seq<string>)
    ensures |fs| >= 1
    ensures forall k :: 0 <= k < |fs| ==> Dot !in fs[k]
    decreases |s|
  {
    if |s| == 0 then [""]
    else
      var rest := Fields(s[1..]);
      if s[0] == Dot then [""] + rest
      else [[s[0]] + rest[0]] + rest[1..]
  }

  /** Joining the fields gives the string back. */
  lemma {:induction false} JoinFields(s: string)
    ensures Join(Fields(s)) == s
    decreases |s|
  {
    if |s| > 0 {
      var rest := Fields(s[1..]);
      JoinFields(s[1..]);
      assert s == [s[0]] + s[1..];
      if s[0] == Dot {
        assert ([""] + rest)[1..] == rest;
      } else {
        var first := [s[0]] + rest[0];
        assert |rest| > 1 ==> Join(rest) == rest[0] + [Dot] + Join(rest[1..]);
        assert ([first] + rest[1..])[1..] == rest[1..];
      }
    }
  }

  /** There is one more field than there are dots. */
  lemma {:induction false} FieldsCount(s: string)
    ensures |Fields(s)| == multiset(s)[Dot] + 1
    decreases |s|
  {
    if |s| > 0 {
      FieldsCount(s[1..]);
      assert s == [s[0]] + s[1..];
      assert multiset(s) == multiset{s[0]} + multiset(s[1..]);
    }
  }

  /** Removes the empty fields at the end, as `split` without a limit does. */
  function DropTrailingEmpty(fs: seq<string>): (r: seq<string>)
    ensures |r| <= |fs| && r == fs[..|r|]
    ensures r == [] || r[|r| - 1] != ""
    ensures forall k :: |r| <= k < |fs| ==> fs[k] == ""
  {
    if |fs| > 0 && fs[|fs| - 1] == "" then DropTrailingEmpty(fs[..|fs| - 1]) else fs
  }

  /** `s.split(".")` */
  function Split(s: string): (parts: seq<string>)
    ensures |parts| <= |Fields(s)| && parts == Fields(s)[..|parts|]
    ensures forall k :: 0 <= k < |parts| ==> Dot !in parts[k]
  {
    DropTrailingEmpty(Fields(s))
  }

  /** Fields of a dot-free prefix: it is glued to the first field of the rest. */
  lemma {:induction false} FieldsOfPrefix(a: string, t: string)
    requires Dot !in a
    ensures Fields(a + t) == [a + Fields(t)[0]] + Fields(t)[1..]
    decreases |a|
  {
    if |a| == 0 {
      var ft := Fields(t);
      assert a + t == t;
      assert a + ft[0] == ft[0];
      assert ft == [ft[0]] + ft[1..];
    } else {
      var ft := Fields(t);
      var s := a + t;
      assert s[0] == a[0] && s[0] != Dot;
      assert s[1..] == a[1..] + t;
      assert Dot !in a[1..] by {
        assert forall c :: c in a[1..] ==> c in a;
      }
      FieldsOfPrefix(a[1..], t);
      var rest := Fields(s[1..]);
      assert rest == [a[1..] + ft[0]] + ft[1..];
      assert Fields(s) == [[s[0]] + rest[0]] + rest[1..];
      assert [s[0]] + rest[0] == a + ft[0] by {
        assert a == [a[0]] + a[1..];
      }
      assert rest[1..] == ft[1..];
    }
  }

  /** `Fields` undoes `Join` on dot-free fields. */
  lemma {:induction false} FieldsOfJoin(parts: seq<string>)
    requires |parts| >= 1
    requires forall k :: 0 <= k < |parts| ==> Dot !in parts[k]
    ensures Fields(Join(parts)) == parts
  {
    if |parts| == 1 {
      FieldsOfPrefix(parts[0], "");
      assert parts[0] + "" == parts[0];
      assert Fields("") == [""];
    } else {
      var tail := Join(parts[1..]);
      FieldsOfJoin(parts[1..]);
      var u := [Dot] + tail;
      FieldsOfPrefix(parts[0], u);
      assert Join(parts) == parts[0] + u;
      assert u[0] == Dot && u[1..] == tail;
      assert Fields(u) == [""] + Fields(tail);
      assert Fields(u)[0] == "" && Fields(u)[1..] == parts[1..];
      assert parts[0] + "" == parts[0];
      assert parts == [parts[0]] + parts[1..];
    }
  }

  /** Every field is empty exactly when the string is made of dots only. */
  lemma {:induction false} FieldsAllEmpty(s: string)
    ensures (forall k :: 0 <= k < |Fields(s)| ==> Fields(s)[k] == "")
        <==> (forall k :: 0 <= k < |s| ==> s[k] == Dot)
    decreases |s|
  {
    if |s| > 0 {
      FieldsAllEmpty(s[1..]);
      if s[0] == Dot {
        var fs, rest := Fields(s), Fields(s[1..]);
        assert fs == [""] + rest;
        assert (forall k :: 0 <= k < |fs| ==> fs[k] == "")
            <==> (forall k :: 0 <= k < |rest| ==> rest[k] == "") by {
          assert forall k :: 1 <= k < |fs| ==> fs[k] == rest[k - 1];
          assert forall k :: 0 <= k < |rest| ==> rest[k] == fs[k + 1];
        }
        assert (forall k :: 0 <= k < |s| ==> s[k] == Dot)
            <==> (forall k :: 0 <= k < |s[1..]| ==> s[1..][k] == Dot) by {
          assert forall k :: 1 <= k < |s| ==> s[k] == s[1..][k - 1];
        }
      } else {
        assert Fields(s)[0] != "";
      }
    }
  }

  /** The last field is empty exactly when the string is empty or ends in a dot. */
  lemma {:induction false} LastFieldEmpty(s: string)
    ensures Fields(s)[|Fields(s)| - 1] == "" <==> (|s| == 0 || s[|s| - 1] == Dot)
    decreases |s|
  {
    if |s| > 0 {
      var rest := Fields(s[1..]);
      LastFieldEmpty(s[1..]);
      if |s| > 1 {
        assert s[1..][|s| - 2] == s[|s| - 1];
      }
      if |s| == 1 {
        assert rest == [""];
      }
    }
  }

  /** `split` returns nothing exactly when the template is empty or all dots. */
  lemma SplitEmptyIffDotsOnly(s: string)
    ensures Split(s) == [] <==> (forall k :: 0 <= k < |s| ==> s[k] == Dot)
  {
    FieldsAllEmpty(s);
    var fs := Fields(s);
    var r := Split(s);
    if r != [] {
      assert r == fs[..|r|] && r[|r| - 1] == fs[|r| - 1];
      assert fs[|r| - 1] != "";
      assert !(forall k :: 0 <= k < |fs| ==> fs[k] == "");
    }
  }

  /** A template that does not end in a dot loses no field to `split`. */
  lemma SplitKeepsAllFieldsWithoutTrailingDot(s: string)
    requires |s| > 0 && s[|s| - 1] != Dot
    ensures Split(s) == Fields(s)
  {
    LastFieldEmpty(s);
  }
}
