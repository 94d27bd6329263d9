/** The Python string primitives the bot relies on: ASCII `str.lower`,
    substring membership `needle in s`, `sep.join(parts)` and `str.replace`. */
module Strings {

  /** Lower-cases one ASCII letter and leaves every other character alone. */
  function LowerChar(c: char): char {
    if 'A' <= c <= 'Z' then (c as int - 'A' as int + 'a' as int) as char else c
  }

  /** `s.lower()` restricted to ASCII letters. */
  function Lower(s: string): (r: string)
    ensures |r| == |s|
    ensures forall i :: 0 <= i < |s| ==> r[i] == LowerChar(s[i])
  {
    seq(|s|, i requires 0 <= i < |s| => LowerChar(s[i]))
  }

  /** Lower-casing works character by character, so it distributes over concatenation. */
  lemma LowerConcat(a: string, b: string)
    ensures Lower(a + b) == Lower(a) + Lower(b)
  {
  }

  /** `needle` occurs in `s` starting at position `i`. */
  ghost predicate OccursAt(needle: string, s: string, i: nat) {
    i + |needle| <= |s| && s[i..i + |needle|] == needle
  }

  /** `needle` occurs in `s` at some position: the meaning of Python's `needle in s`. */
  ghost predicate Occurs(needle: string, s: string) {
    exists i: nat :: OccursAt(needle, s, i)
  }

  /** Python's `needle in s`, scanning the start positions of `s` from the left. */
  function Contains(s: string, needle: string): (b: bool)
    ensures b <==> Occurs(needle, s)
    decreases |s|
  {
    if needle <= s then
      assert OccursAt(needle, s, 0);
      true
    else if |s| == 0 then
      false
    else
      var b := Contains(s[1..], needle);
      assert Occurs(needle, s[1..]) ==> Occurs(needle, s) by {
        if Occurs(needle, s[1..]) {
          var j: nat :| OccursAt(needle, s[1..], j);
          assert s[j + 1..j + 1 + |needle|] == s[1..][j..j + |needle|];
          assert OccursAt(needle, s, j + 1);
        }
      }
      assert Occurs(needle, s) ==> Occurs(needle, s[1..]) by {
        if Occurs(needle, s) {
          var i: nat :| OccursAt(needle, s, i);
          if i == 0 {
            assert false;
          } else {
            assert s[1..][i - 1..i - 1 + |needle|] == s[i..i + |needle|];
            assert OccursAt(needle, s[1..], i - 1);
          }
        }
      }
      b
  }

  /** A pattern can only occur in a string that has every one of its characters. */
  lemma ContainsCharOf(s: string, needle: string, j: nat)
    requires j < |needle|
    ensures Contains(s, needle) ==> needle[j] in s
  {
  }

  /** An occurrence inside a substring is an occurrence in the whole string. */
  lemma ContainsWithin(a: string, w: string, b: string, needle: string)
    requires Contains(w, needle)
    ensures Contains(a + w + b, needle)
  {
    var i: nat :| OccursAt(needle, w, i);
    var s := a + w + b;
    assert s[|a| + i..|a| + i + |needle|] == w[i..i + |needle|];
    assert OccursAt(needle, s, |a| + i);
  }

  /** Total length of a list of strings. */
  function TotalLength(parts: seq<string>): nat {
    if |parts| == 0 then 0 else |parts[0]| + TotalLength(parts[1..])
  }

  /** Python's `sep.join(parts)`: the parts in order, with `sep` between neighbours. */
  function Join(parts: seq<string>, sep: string): (r: string)
    ensures |parts| > 0 ==> |r| == TotalLength(parts) + (|parts| - 1) * |sep|
    ensures |parts| == 0 ==> r == ""
  {
    if |parts| == 0 then ""
    else if |parts| == 1 then parts[0]
    else parts[0] + sep + Join(parts[1..], sep)
  }

  /** Cutting the list anywhere cuts the joined string at a separator: the parts
      appear in the order given, each separated from the next by exactly `sep`. */
  lemma {:induction false} JoinSplit(parts: seq<string>, sep: string, k: nat)
    requires 0 < k < |parts|
    ensures Join(parts, sep) == Join(parts[..k], sep) + sep + Join(parts[k..], sep)
  {
    if k == 1 {
      assert parts[..1] == [parts[0]];
    } else {
      var rest := parts[1..];
      JoinSplit(rest, sep, k - 1);
      assert parts[..k][0] == parts[0];
      assert parts[..k][1..] == rest[..k - 1];
      assert rest[k - 1..] == parts[k..];
    }
  }

  /** Appending a part appends a separator and the part, which is how Python's
      `join` accumulates its result. */
  lemma JoinSnoc(parts: seq<string>, x: string, sep: string)
    requires |parts| > 0
    ensures Join(parts + [x], sep) == Join(parts, sep) + sep + x
  {
    var all := parts + [x];
    JoinSplit(all, sep, |parts|);
    assert all[..|parts|] == parts;
    assert all[|parts|..] == [x];
  }

  /** With a non-empty separator, the join is empty exactly when there is no part
      or a single empty part. */
  lemma JoinEmptyIff(parts: seq<string>, sep: string)
    requires |sep| > 0
    ensures Join(parts, sep) == "" <==> |parts| == 0 || (|parts| == 1 && parts[0] == "")
  {
  }

  /** Python's `s.replace(pat, rep)`: scans `s` from the left and replaces each
      non-overlapping occurrence of `pat`; an empty `pat` inserts `rep` before
      every character and at the end. */
  function Replace(s: string, pat: string, rep: string): (r: string)
    ensures forall c :: c in r ==> c in s || c in rep
    ensures |pat| == 1 && pat[0] !in rep ==> pat[0] !in r
    ensures |pat| > 0 && !Contains(s, pat) ==> r == s
    decreases |s|
  {
    if |pat| == 0 then
      if |s| == 0 then rep else rep + [s[0]] + Replace(s[1..], pat, rep)
    else if |s| == 0 then ""
    else if pat <= s then rep + Replace(s[|pat|..], pat, rep)
    else [s[0]] + Replace(s[1..], pat, rep)
  }

  /** For a one-character pattern, replacing distributes over concatenation
      (no occurrence can straddle the boundary). */
  lemma {:induction false} ReplaceCharConcat(a: string, b: string, c: char, rep: string)
    ensures Replace(a + b, [c], rep) == Replace(a, [c], rep) + Replace(b, [c], rep)
    decreases |a|
  {
    if |a| == 0 {
      assert a + b == b;
    } else {
      assert (a + b)[1..] == a[1..] + b;
      ReplaceCharConcat(a[1..], b, c, rep);
      if [c] <= a + b {
        assert [c] <= a;
      } else {
        assert !([c] <= a);
      }
    }
  }
}
