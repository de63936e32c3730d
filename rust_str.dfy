/** Models of the few Rust string operations the follower fetcher relies on:
    `str::split` with a `char` pattern, `str::contains` with a `&str` pattern,
    and the decimal rendering of an integer by `to_string`. */
module RustStr {

  /** The pieces of `s` between occurrences of `sep`, in order, as `s.split(sep)` yields
      them: always at least one piece, and empty pieces are kept. */
  function Split(s: string, sep: char): (parts: seq<string>)
    ensures |parts| >= 1
    decreases |s|
  {
    if |s| == 0 then [""]
    else
      var rest := Split(s[1..], sep);
      if s[0] == sep then [""] + rest
      else [[s[0]] + rest[0]] + rest[1..]
  }

  /** The pieces glued back together with `sep` between each two of them. */
  function Join(parts: seq<string>, sep: char): string
    requires |parts| >= 1
  {
    if |parts| == 1 then parts[0] else parts[0] + [sep] + Join(parts[1..], sep)
  }

  /** Splitting loses nothing: joining the pieces back gives the original string,
      and no piece contains the separator. */
  lemma {:induction false} SplitJoin(s: string, sep: char)
    ensures Join(Split(s, sep), sep) == s
    ensures forall i :: 0 <= i < |Split(s, sep)| ==> sep !in Split(s, sep)[i]
    decreases |s|
  {
    if |s| > 0 {
      var rest := Split(s[1..], sep);
      SplitJoin(s[1..], sep);
      assert s == [s[0]] + s[1..];
      if s[0] == sep {
        assert ([""] + rest)[1..] == rest;
      } else {
        var parts := [[s[0]] + rest[0]] + rest[1..];
        assert parts[1..] == rest[1..];
        if |rest| > 1 {
          assert Join(rest, sep) == rest[0] + [sep] + Join(rest[1..], sep);
        }
      }
    }
  }

  /** Every character of a piece is a character of the split string. */
  lemma {:induction false} SplitPiecesWithin(s: string, sep: char)
    ensures forall i, c :: 0 <= i < |Split(s, sep)| && c in Split(s, sep)[i] ==> c in s
    decreases |s|
  {
    if |s| > 0 {
      SplitPiecesWithin(s[1..], sep);
      var rest := Split(s[1..], sep);
      forall i, c | 0 <= i < |Split(s, sep)| && c in Split(s, sep)[i] ensures c in s {
        if s[0] == sep {
          if i > 0 {
            assert Split(s, sep)[i] == rest[i - 1];
            assert c in s[1..];
          }
        } else if i == 0 {
          assert c == s[0] || c in rest[0];
          assert c in rest[0] ==> c in s[1..];
        } else {
          assert Split(s, sep)[i] == rest[i];
          assert c in s[1..];
        }
      }
    }
  }

  /** There is one more piece than there are separators. */
  lemma {:induction false} SplitCount(s: string, sep: char)
    ensures |Split(s, sep)| == multiset(s)[sep] + 1
    decreases |s|
  {
    if |s| > 0 {
      SplitCount(s[1..], sep);
      assert s == [s[0]] + s[1..];
      assert multiset(s) == multiset{s[0]} + multiset(s[1..]);
    }
  }

  /** A prefix free of the separator becomes the head of the first piece;
      the remaining pieces are those of the rest of the string. */
  lemma {:induction false} SplitHead(a: string, b: string, sep: char)
    requires sep !in a
    ensures Split(a + b, sep) == [a + Split(b, sep)[0]] + Split(b, sep)[1..]
    decreases |a|
  {
    if |a| == 0 {
      assert a + b == b;
      assert a + Split(b, sep)[0] == Split(b, sep)[0];
      assert Split(b, sep) == [Split(b, sep)[0]] + Split(b, sep)[1..];
    } else {
      assert (a + b)[1..] == a[1..] + b;
      SplitHead(a[1..], b, sep);
      var rest := Split(a[1..] + b, sep);
      assert rest[0] == a[1..] + Split(b, sep)[0];
      assert rest[1..] == Split(b, sep)[1..];
      assert Split(a + b, sep) == [[a[0]] + rest[0]] + rest[1..];
      assert [a[0]] + (a[1..] + Split(b, sep)[0]) == a + Split(b, sep)[0];
    }
  }

  /** A string with no separator splits into itself alone. */
  lemma SplitNoSep(s: string, sep: char)
    requires sep !in s
    ensures Split(s, sep) == [s]
  {
    SplitHead(s, "", sep);
    assert s + "" == s;
  }

  /** Splitting at the first separator: the text before it is the first piece,
      and the pieces after it are those of the text after it. */
  lemma SplitAtFirst(a: string, b: string, sep: char)
    requires sep !in a
    ensures Split(a + [sep] + b, sep) == [a] + Split(b, sep)
  {
    SplitHead(a, [sep] + b, sep);
    assert ([sep] + b)[1..] == b;
    assert Split([sep] + b, sep) == [""] + Split(b, sep);
    assert a + "" == a;
    assert a + [sep] + b == a + ([sep] + b);
  }

  /** The first piece is a prefix of the split string. */
  lemma {:induction false} SplitHeadIsPrefix(s: string, sep: char)
    ensures |Split(s, sep)[0]| <= |s| && Split(s, sep)[0] == s[..|Split(s, sep)[0]|]
    decreases |s|
  {
    if |s| > 0 {
      SplitHeadIsPrefix(s[1..], sep);
    }
  }

  /** The text of `s` before its first `c` (all of `s` when there is none). */
  function Upto(s: string, c: char): (r: string)
    ensures c !in r
  {
    if |s| == 0 then "" else if s[0] == c then "" else [s[0]] + Upto(s[1..], c)
  }

  /** The text of `s` after its first `c` (empty when there is none). */
  function After(s: string, c: char): string
  {
    if |s| == 0 then "" else if s[0] == c then s[1..] else After(s[1..], c)
  }

  /** There is more than one piece exactly when the separator occurs; the first piece
      is the text before the first separator, and the second piece the text between
      the first and the second separator. */
  lemma {:induction false} SplitPieces(s: string, sep: char)
    ensures |Split(s, sep)| > 1 <==> sep in s
    ensures Split(s, sep)[0] == Upto(s, sep)
    ensures sep in s ==> Split(s, sep)[1] == Upto(After(s, sep), sep)
    decreases |s|
  {
    if |s| > 0 {
      SplitPieces(s[1..], sep);
      assert sep in s <==> s[0] == sep || sep in s[1..] by {
        assert s == [s[0]] + s[1..];
      }
      if s[0] == sep {
        SplitPieces(s[1..], sep);
      }
    }
  }

  lemma {:induction false} UptoWithin(s: string, c: char)
    ensures forall x :: x in Upto(s, c) ==> x in s
    decreases |s|
  {
    if |s| > 0 && s[0] != c {
      UptoWithin(s[1..], c);
      assert forall x :: x in s[1..] ==> x in s;
    }
  }

  lemma {:induction false} AfterWithin(s: string, c: char)
    ensures forall x :: x in After(s, c) ==> x in s
    decreases |s|
  {
    if |s| > 0 {
      AfterWithin(s[1..], c);
      assert forall x :: x in s[1..] ==> x in s;
    }
  }

  /** Scanning for `c` passes over a prefix that does not hold it. */
  lemma {:induction false} ScanPast(a: string, b: string, c: char)
    requires c !in a
    ensures Upto(a + b, c) == a + Upto(b, c)
    ensures After(a + b, c) == After(b, c)
    decreases |a|
  {
    if |a| == 0 {
      assert a + b == b;
    } else {
      assert (a + b)[1..] == a[1..] + b;
      ScanPast(a[1..], b, c);
      assert a == [a[0]] + a[1..];
    }
  }

  /** Scanning a text whose first `c` follows `a` stops right there: what comes before
      it is `a`, what comes after it is `b`. */
  lemma ScanAt(a: string, b: string, c: char)
    requires c !in a
    ensures Upto(a + [c] + b, c) == a && After(a + [c] + b, c) == b
  {
    ScanPast(a, [c] + b, c);
    assert a + [c] + b == a + ([c] + b);
    assert a + "" == a;
  }

  /** `s` holds `pat` starting at position `i`. */
  ghost predicate OccursAt(s: string, pat: string, i: int)
  {
    0 <= i && i + |pat| <= |s| && s[i..i + |pat|] == pat
  }

  /** `s.contains(pat)`: a left-to-right search for `pat` in `s`, true exactly when
      `pat` occurs somewhere in `s` (the empty pattern occurs everywhere). */
  function Contains(s: string, pat: string): (r: bool)
    ensures r <==> exists i :: OccursAt(s, pat, i)
    decreases |s|
  {
    if |pat| > |s| then
      assert forall i :: !OccursAt(s, pat, i);
      false
    else if s[..|pat|] == pat then
      assert OccursAt(s, pat, 0);
      true
    else
      var r := Contains(s[1..], pat);
      assert forall i :: OccursAt(s[1..], pat, i) ==> OccursAt(s, pat, i + 1) by {
        forall i | OccursAt(s[1..], pat, i) ensures OccursAt(s, pat, i + 1) {
          assert s[1..][i..i + |pat|] == s[i + 1..i + 1 + |pat|];
        }
      }
      assert forall i :: OccursAt(s, pat, i) ==> OccursAt(s[1..], pat, i - 1) by {
        forall i | OccursAt(s, pat, i) ensures OccursAt(s[1..], pat, i - 1) {
          assert i != 0;
          assert s[1..][i - 1..i - 1 + |pat|] == s[i..i + |pat|];
        }
      }
      r
  }

  /** The number a string of decimal digits denotes, most significant digit first. */
  function DigitsValue(s: string): int
  {
    if |s| == 0 then 0 else DigitsValue(s[..|s| - 1]) * 10 + (s[|s| - 1] as int - '0' as int)
  }

  /** The integer a rendering denotes: a leading `-` negates the digits after it. */
  function SignedValue(s: string): int
  {
    if |s| > 0 && s[0] == '-' then -DigitsValue(s[1..]) else DigitsValue(s)
  }

  /** The decimal digits of a natural number, most significant first, as `to_string` writes them. */
  function NatToString(n: nat): (r: string)
    ensures |r| >= 1
    ensures forall c :: c in r ==> '0' <= c <= '9'
    ensures DigitsValue(r) == n
    ensures r[0] != '0' || |r| == 1
  {
    var d := [(n % 10) as char + '0'];
    if n < 10 then
      assert d[..0] == [];
      d
    else
      var r := NatToString(n / 10) + d;
      assert r[..|r| - 1] == NatToString(n / 10);
      r
  }

  /** `i32::to_string`: a minus sign for negative values, then the digits. The rendering
      denotes the value it was made from. */
  function IntToString(n: int): (r: string)
    ensures |r| >= 1
    ensures forall c :: c in r ==> c == '-' || '0' <= c <= '9'
    ensures (r[0] == '-') <==> n < 0
    ensures SignedValue(r) == n
  {
    if n < 0 then
      var r := "-" + NatToString(-n);
      assert r[1..] == NatToString(-n);
      r
    else
      assert NatToString(n)[0] in NatToString(n);
      NatToString(n)
  }

  /** Distinct ids render differently, so a URL built from a rendering names one id. */
  lemma IntToStringInjective(a: int, b: int)
    requires IntToString(a) == IntToString(b)
    ensures a == b
  {
    assert SignedValue(IntToString(a)) == SignedValue(IntToString(b));
  }
}
