/** The parts of `java.lang.String` the join logic uses: `toLowerCase`,
    `equalsIgnoreCase` and `split(";")`. Case mapping is modelled for ASCII
    letters only. */
module Text {

  /** Lower-cases one ASCII letter and leaves every other character alone. */
  function LowerChar(c: char): char
  {
    if 'A' <= c <= 'Z' then (c as int - 'A' as int + 'a' as int) as char else c
  }

  predicate IsLowerCase(s: string)
  {
    forall i :: 0 <= i < |s| ==> !('A' <= s[i] <= 'Z')
  }

  /** `String.toLowerCase()`. */
  function Lower(s: string): (r: string)
    ensures |r| == |s|
    ensures forall i :: 0 <= i < |s| ==> r[i] == LowerChar(s[i])
    ensures IsLowerCase(r)
  {
    if |s| == 0 then "" else [LowerChar(s[0])] + Lower(s[1..])
  }

  /** `a.equalsIgnoreCase(b)`: same length and the characters agree pairwise
      once case is ignored. */
  predicate EqualsIgnoreCase(a: string, b: string): (eq: bool)
    ensures a == b ==> eq
    ensures eq ==> |a| == |b|
  {
    |a| == |b| && forall i :: 0 <= i < |a| ==> LowerChar(a[i]) == LowerChar(b[i])
  }

  /** Ignoring case is the same as comparing the lower-cased strings, so it is
      an equivalence relation. */
  lemma EqualsIgnoreCaseIsLowerEquality(a: string, b: string)
    ensures EqualsIgnoreCase(a, b) <==> Lower(a) == Lower(b)
  {
    if EqualsIgnoreCase(a, b) {
      assert forall i :: 0 <= i < |a| ==> Lower(a)[i] == Lower(b)[i];
    }
    if Lower(a) == Lower(b) {
      assert forall i :: 0 <= i < |a| ==> LowerChar(a[i]) == Lower(a)[i] == Lower(b)[i] == LowerChar(b[i]);
    }
  }

  lemma EqualsIgnoreCaseTransitive(a: string, b: string, c: string)
    requires EqualsIgnoreCase(a, b) && EqualsIgnoreCase(b, c)
    ensures EqualsIgnoreCase(a, c)
  {
    EqualsIgnoreCaseIsLowerEquality(a, b);
    EqualsIgnoreCaseIsLowerEquality(b, c);
    EqualsIgnoreCaseIsLowerEquality(a, c);
  }

  /** Lower-casing changes nothing but case, and doing it twice is doing it once. */
  lemma LowerKeepsIdentity(s: string)
    ensures EqualsIgnoreCase(Lower(s), s)
    ensures Lower(Lower(s)) == Lower(s)
    ensures IsLowerCase(s) ==> Lower(s) == s
  {
  }

  /** Every `;`-separated field of `s`, empty ones included. */
  function Fields(s: string): (fs: seq<string>)
    ensures |fs| >= 1
  {
    if |s| == 0 then [""]
    else
      var rest := Fields(s[1..]);
      if s[0] == ';' then [""] + rest
      else [[s[0]] + rest[0]] + rest[1..]
  }

  /** The fields glued back together with `;`. */
  function JoinFields(fs: seq<string>): string
    requires |fs| >= 1
  {
    if |fs| == 1 then fs[0] else fs[0] + ";" + JoinFields(fs[1..])
  }

  /** `Fields` cuts exactly at the separators: no field holds a `;`, and
      joining the fields with `;` gives the string back. */
  lemma {:induction false} FieldsRoundTrip(s: string)
    ensures JoinFields(Fields(s)) == s
    ensures forall i :: 0 <= i < |Fields(s)| ==> ';' !in Fields(s)[i]
  {
    if |s| > 0 {
      var rest := Fields(s[1..]);
      FieldsRoundTrip(s[1..]);
      if s[0] == ';' {
        assert Fields(s) == [""] + rest;
        assert ([""] + rest)[1..] == rest;
        assert s == [';'] + s[1..];
      } else {
        var fs := Fields(s);
        assert fs == [[s[0]] + rest[0]] + rest[1..];
        assert s == [s[0]] + s[1..];
        if |rest| > 1 {
          assert fs[1..] == rest[1..];
          assert JoinFields(rest) == rest[0] + ";" + JoinFields(rest[1..]);
        }
        forall i | 0 <= i < |fs|
          ensures ';' !in fs[i]
        {
          if i > 0 {
            assert fs[i] == rest[i];
          }
        }
      }
    }
  }

  /** The prefix of `fs` left once every trailing empty field is dropped. */
  function DropTrailingEmpty(fs: seq<string>): (r: seq<string>)
    ensures r <= fs
    ensures |r| > 0 ==> r[|r| - 1] != ""
    ensures forall i :: |r| <= i < |fs| ==> fs[i] == ""
  {
    if |fs| == 0 then []
    else if fs[|fs| - 1] == "" then DropTrailingEmpty(fs[..|fs| - 1])
    else fs
  }

  /** `s.split(";")`: the fields with trailing empty ones removed, except that
      a string without any separator (the empty string included) comes back
      as itself. */
  function Split(s: string): (r: seq<string>)
    ensures ';' !in s ==> r == [s]
    ensures ';' in s ==> r <= Fields(s) && (|r| > 0 ==> r[|r| - 1] != "")
    ensures ';' in s ==> forall i :: |r| <= i < |Fields(s)| ==> Fields(s)[i] == ""
  {
    if ';' !in s then [s] else DropTrailingEmpty(Fields(s))
  }

  lemma {:induction false} FieldsWithoutSeparator(s: string)
    requires ';' !in s
    ensures Fields(s) == [s]
  {
    if |s| > 0 {
      FieldsWithoutSeparator(s[1..]);
      assert s == [s[0]] + s[1..];
    }
  }

  lemma {:induction false} FieldsAfterFirst(n: string, rest: string)
    requires ';' !in n
    ensures Fields(n + ";" + rest) == [n] + Fields(rest)
  {
    if |n| == 0 {
      assert n + ";" + rest == [';'] + rest;
      assert (n + ";" + rest)[1..] == rest;
    } else {
      var s := n + ";" + rest;
      assert s[1..] == n[1..] + ";" + rest;
      FieldsAfterFirst(n[1..], rest);
      assert [s[0]] + n[1..] == n;
    }
  }

  /** A `name;value` entry with no `;` inside either part and a non-empty
      value splits back into exactly its two parts. */
  lemma SplitPair(n: string, v: string)
    requires ';' !in n && ';' !in v && v != ""
    ensures Split(n + ";" + v) == [n, v]
  {
    var s := n + ";" + v;
    assert s[|n|] == ';';
    FieldsAfterFirst(n, v);
    FieldsWithoutSeparator(v);
    assert Fields(s) == [n, v];
  }
}
