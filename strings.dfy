/**
  The few Python string operations the scraper relies on, written out on
  `seq<char>`: `str.replace` of one character, `str.replace(c, '')`,
  `str.strip(c)`, `str.split(c)` and `str(n)` for a natural number.
 */
module Strings {

  /** Number of occurrences of `c` in `s`. */
  function Count(s: string, c: char): nat
  {
    if s == [] then 0 else (if s[0] == c then 1 else 0) + Count(s[1..], c)
  }

  /** There are at most `|s|` occurrences, and none exactly when `c` is absent. */
  lemma {:induction false} CountBounds(s: string, c: char)
    ensures Count(s, c) <= |s|
    ensures Count(s, c) == 0 <==> c !in s
  {
    if s != [] {
      CountBounds(s[1..], c);
      assert s == [s[0]] + s[1..];
    }
  }

  /** Index of the first `c` in `s`, or `|s|` when there is none. */
  function IndexOf(s: string, c: char): (i: nat)
    ensures i <= |s|
    ensures c !in s[..i]
    ensures i < |s| ==> s[i] == c
  {
    if s == [] then 0
    else if s[0] == c then 0
    else
      assert s[..1 + IndexOf(s[1..], c)] == [s[0]] + s[1..][..IndexOf(s[1..], c)];
      1 + IndexOf(s[1..], c)
  }

  /** `s.replace(a, b)` for single characters: every `a` becomes `b`. */
  function ReplaceChar(s: string, a: char, b: char): (r: string)
    ensures |r| == |s|
    ensures forall i :: 0 <= i < |s| ==> r[i] == (if s[i] == a then b else s[i])
  {
    if s == [] then [] else [if s[0] == a then b else s[0]] + ReplaceChar(s[1..], a, b)
  }

  lemma {:induction false} ReplaceCharConcat(s: string, t: string, a: char, b: char)
    ensures ReplaceChar(s + t, a, b) == ReplaceChar(s, a, b) + ReplaceChar(t, a, b)
  {
    if s != [] {
      assert (s + t)[1..] == s[1..] + t;
      ReplaceCharConcat(s[1..], t, a, b);
    }
  }

  /** Replacing `a` by `b` leaves the count of any third character alone. */
  lemma {:induction false} CountReplaceChar(s: string, a: char, b: char, c: char)
    requires c != a && c != b
    ensures Count(ReplaceChar(s, a, b), c) == Count(s, c)
  {
    if s != [] {
      assert ReplaceChar(s, a, b)[1..] == ReplaceChar(s[1..], a, b);
      CountReplaceChar(s[1..], a, b, c);
    }
  }

  /** `s.replace(c, '')`: every `c` deleted, everything else kept in order. */
  function RemoveAll(s: string, c: char): string
  {
    if s == [] then []
    else if s[0] == c then RemoveAll(s[1..], c) else [s[0]] + RemoveAll(s[1..], c)
  }

  /** No `c` is left, exactly `Count(s, c)` characters go, and without a `c` nothing changes. */
  lemma {:induction false} RemoveAllSpec(s: string, c: char)
    ensures c !in RemoveAll(s, c)
    ensures |RemoveAll(s, c)| == |s| - Count(s, c)
    ensures c !in s ==> RemoveAll(s, c) == s
  {
    if s != [] {
      RemoveAllSpec(s[1..], c);
      assert s == [s[0]] + s[1..];
    }
  }

  /** What `RemoveAll` keeps: every character other than `c`, as often as it occurs. */
  lemma {:induction false} RemoveAllMultiset(s: string, c: char)
    ensures multiset(RemoveAll(s, c)) == multiset(s)[c := 0]
  {
    if s != [] {
      assert s == [s[0]] + s[1..];
      RemoveAllMultiset(s[1..], c);
    }
  }

  /** `RemoveAll` works piece by piece, so what it keeps stays in order ... */
  lemma {:induction false} RemoveAllConcat(s: string, t: string, c: char)
    ensures RemoveAll(s + t, c) == RemoveAll(s, c) + RemoveAll(t, c)
  {
    if s == [] {
      assert s + t == t;
    } else {
      assert (s + t)[1..] == s[1..] + t;
      RemoveAllConcat(s[1..], t, c);
    }
  }

  /** ... and on one character it keeps that character unless it is `c`. */
  lemma RemoveAllOfChar(x: char, c: char)
    ensures RemoveAll([x], c) == if x == c then [] else [x]
  {
    assert [x][1..] == [];
  }

  /** `s.lstrip(c)`: the longest suffix of `s` that does not start with `c`. */
  function TrimStart(s: string, c: char): string
  {
    if s != [] && s[0] == c then TrimStart(s[1..], c) else s
  }

  /** What `TrimStart` cuts off is a run of `c`, and what it keeps does not start with `c`. */
  lemma {:induction false} TrimStartSpec(s: string, c: char)
    ensures var r := TrimStart(s, c);
            && |r| <= |s| && r == s[|s| - |r|..]
            && (r == [] || r[0] != c)
            && forall i :: 0 <= i < |s| - |r| ==> s[i] == c
  {
    if s != [] && s[0] == c {
      TrimStartSpec(s[1..], c);
      var r := TrimStart(s, c);
      assert s[1..][|s| - 1 - |r|..] == s[|s| - |r|..];
      forall i | 1 <= i < |s| - |r|
        ensures s[i] == c
      {
        assert s[1..][i - 1] == s[i];
      }
    }
  }

  /** `s.rstrip(c)`: the longest prefix of `s` that does not end with `c`. */
  function TrimEnd(s: string, c: char): string
  {
    if s != [] && s[|s| - 1] == c then TrimEnd(s[..|s| - 1], c) else s
  }

  /** What `TrimEnd` cuts off is a run of `c`, and what it keeps does not end with `c`. */
  lemma {:induction false} TrimEndSpec(s: string, c: char)
    ensures var r := TrimEnd(s, c);
            && |r| <= |s| && r == s[..|r|]
            && (r == [] || r[|r| - 1] != c)
            && forall i :: |r| <= i < |s| ==> s[i] == c
  {
    if s != [] && s[|s| - 1] == c {
      TrimEndSpec(s[..|s| - 1], c);
      var r := TrimEnd(s, c);
      assert s[..|s| - 1][..|r|] == s[..|r|];
      forall i | |r| <= i < |s| - 1
        ensures s[i] == c
      {
        assert s[..|s| - 1][i] == s[i];
      }
    }
  }

  /**
    `s.strip(c)`: `s` with the run of `c` at either end cut off. What is cut
    off is only `c`, and what is left neither starts nor ends with `c`.
   */
  function Strip(s: string, c: char): string
  {
    TrimEnd(TrimStart(s, c), c)
  }

  /**
    `Strip` keeps a middle slice of `s` and cuts only `c`s on either side of
    it; what is left neither starts nor ends with `c`.
   */
  lemma StripSpec(s: string, c: char)
    ensures exists i, j :: 0 <= i <= j <= |s| && Strip(s, c) == s[i..j] &&
              forall k :: 0 <= k < i || j <= k < |s| ==> s[k] == c
    ensures multiset(Strip(s, c)) <= multiset(s)
    ensures (multiset(s) - multiset(Strip(s, c)))[c] == |s| - |Strip(s, c)|
    ensures Strip(s, c) == [] || (Strip(s, c)[0] != c && Strip(s, c)[|Strip(s, c)| - 1] != c)
    ensures c !in s ==> Strip(s, c) == s
  {
    StripSlice(s, c);
    StripCounts(s, c);
  }

  /** What `Strip` cuts off is `c`s only, and what is left neither starts nor ends with `c`. */
  lemma StripCounts(s: string, c: char)
    ensures multiset(Strip(s, c)) <= multiset(s)
    ensures (multiset(s) - multiset(Strip(s, c)))[c] == |s| - |Strip(s, c)|
    ensures Strip(s, c) == [] || (Strip(s, c)[0] != c && Strip(s, c)[|Strip(s, c)| - 1] != c)
    ensures c !in s ==> Strip(s, c) == s
  {
    var left := TrimStart(s, c);
    TrimStartSpec(s, c);
    var r := TrimEnd(left, c);
    TrimEndSpec(left, c);
    StripMultiset(s, c);
    if r != [] {
      assert r[0] == left[0];
    }
  }

  /** The characters of `s` are those `Strip` keeps and as many `c`s as it cuts. */
  lemma StripMultiset(s: string, c: char)
    ensures |Strip(s, c)| <= |s|
    ensures multiset(s) == multiset(Strip(s, c)) + multiset{}[c := |s| - |Strip(s, c)|]
  {
    var left := TrimStart(s, c);
    TrimStartSpec(s, c);
    var k := |s| - |left|;
    CutLeadingRun(s, k, c);
    assert s[k..] == left;
    var r := TrimEnd(left, c);
    TrimEndSpec(left, c);
    CutTrailingRun(left, |r|, c);
    assert left[..|r|] == r;
    assert multiset(s) == multiset{}[c := k] + multiset(left);
    assert multiset(left) == multiset(r) + multiset{}[c := |left| - |r|];
    RunsAdd(c, k, |left| - |r|);
  }

  /** Two runs of `c` make one. */
  lemma RunsAdd(c: char, a: nat, b: nat)
    ensures multiset{}[c := a] + multiset{}[c := b] == multiset{}[c := a + b]
  {
  }

  /** `Strip` keeps the slice of `s` between its leading and its trailing run of `c`. */
  lemma StripSlice(s: string, c: char)
    ensures exists i, j :: 0 <= i <= j <= |s| && Strip(s, c) == s[i..j] &&
              forall k :: 0 <= k < i || j <= k < |s| ==> s[k] == c
  {
    var left := TrimStart(s, c);
    TrimStartSpec(s, c);
    var i := |s| - |left|;
    var r := TrimEnd(left, c);
    TrimEndSpec(left, c);
    assert r == s[i..i + |r|];
    forall k | i + |r| <= k < |s|
      ensures s[k] == c
    {
      assert s[k] == left[k - i];
    }
    assert 0 <= i <= i + |r| <= |s| && Strip(s, c) == s[i..i + |r|];
  }

  /** A string made only of `c` is `|s|` copies of `c`. */
  lemma {:induction false} AllChar(s: string, c: char)
    requires forall i :: 0 <= i < |s| ==> s[i] == c
    ensures multiset(s) == multiset{}[c := |s|]
  {
    if s != [] {
      assert s == [s[0]] + s[1..];
      AllChar(s[1..], c);
    }
  }

  /** Cutting off a leading run of `c` removes `c`s and nothing else. */
  lemma CutLeadingRun(s: string, k: nat, c: char)
    requires k <= |s|
    requires forall i :: 0 <= i < k ==> s[i] == c
    ensures multiset(s) == multiset(s[..k]) + multiset(s[k..])
    ensures multiset(s[..k]) == multiset{}[c := k]
  {
    assert s == s[..k] + s[k..];
    AllChar(s[..k], c);
  }

  /** Cutting off a trailing run of `c` removes `c`s and nothing else. */
  lemma CutTrailingRun(s: string, k: nat, c: char)
    requires k <= |s|
    requires forall i :: k <= i < |s| ==> s[i] == c
    ensures multiset(s) == multiset(s[..k]) + multiset(s[k..])
    ensures multiset(s[k..]) == multiset{}[c := |s| - k]
  {
    assert s == s[..k] + s[k..];
    AllChar(s[k..], c);
  }

  /** `s.split(sep)`: the pieces of `s` between the occurrences of `sep`. */
  function Split(s: string, sep: char): (pieces: seq<string>)
    ensures |pieces| >= 1
  {
    if s == [] then [[]]
    else
      var rest := Split(s[1..], sep);
      if s[0] == sep then [[]] + rest
      else [[s[0]] + rest[0]] + rest[1..]
  }

  /** There is one piece more than there are separators, and no piece holds one. */
  lemma {:induction false} SplitSpec(s: string, sep: char)
    ensures |Split(s, sep)| == Count(s, sep) + 1
    ensures forall i :: 0 <= i < |Split(s, sep)| ==> sep !in Split(s, sep)[i]
  {
    if s != [] {
      SplitSpec(s[1..], sep);
      var rest := Split(s[1..], sep);
      var pieces := Split(s, sep);
      if s[0] != sep {
        assert pieces[0] == [s[0]] + rest[0];
        forall i | 1 <= i < |pieces|
          ensures sep !in pieces[i]
        {
          assert pieces[i] == rest[i];
        }
      } else {
        forall i | 1 <= i < |pieces|
          ensures sep !in pieces[i]
        {
          assert pieces[i] == rest[i - 1];
        }
      }
    }
  }

  /** `sep.join(pieces)`, the inverse of `Split`. */
  function Join(pieces: seq<string>, sep: char): (s: string)
    requires |pieces| >= 1
  {
    if |pieces| == 1 then pieces[0] else pieces[0] + [sep] + Join(pieces[1..], sep)
  }

  /** Joining the pieces of a split gives the text back. */
  lemma {:induction false} JoinSplit(s: string, sep: char)
    ensures Join(Split(s, sep), sep) == s
  {
    if s != [] {
      var rest := Split(s[1..], sep);
      JoinSplit(s[1..], sep);
      if s[0] == sep {
        assert Split(s, sep)[1..] == rest;
      } else {
        var pieces := Split(s, sep);
        assert pieces[1..] == rest[1..];
        if |rest| == 1 {
          assert pieces == [[s[0]] + rest[0]];
        } else {
          assert Join(rest, sep) == rest[0] + [sep] + Join(rest[1..], sep);
        }
      }
    }
  }

  /**
    The first piece is the text before the first `sep`; when there is a `sep`,
    the remaining pieces are the split of the text after it.
   */
  lemma {:induction false} SplitAtFirst(s: string, sep: char)
    ensures Split(s, sep)[0] == s[..IndexOf(s, sep)]
    ensures IndexOf(s, sep) < |s| ==> Split(s, sep)[1..] == Split(s[IndexOf(s, sep) + 1..], sep)
  {
    if s != [] && s[0] != sep {
      SplitAtFirst(s[1..], sep);
      assert s[..IndexOf(s, sep)] == [s[0]] + s[1..][..IndexOf(s[1..], sep)];
      if IndexOf(s, sep) < |s| {
        assert s[IndexOf(s, sep) + 1..] == s[1..][IndexOf(s[1..], sep) + 1..];
      }
    }
  }

  function DigitChar(d: nat): (c: char)
    requires d < 10
    ensures '0' <= c <= '9'
  {
    "0123456789"[d]
  }

  function DigitValue(c: char): nat
    requires '0' <= c <= '9'
  {
    (c as int - '0' as int) as nat
  }

  /** `str(n)`: the decimal digits of `n`, with no leading zero. */
  function Decimal(n: nat): (s: string)
    ensures |s| >= 1
    ensures forall i :: 0 <= i < |s| ==> '0' <= s[i] <= '9'
    ensures s[0] == '0' ==> n == 0
  {
    if n < 10 then [DigitChar(n)] else Decimal(n / 10) + [DigitChar(n % 10)]
  }

  /** The value of a string of decimal digits. */
  function ParseDecimal(s: string): nat
    requires forall i :: 0 <= i < |s| ==> '0' <= s[i] <= '9'
  {
    if s == [] then 0 else ParseDecimal(s[..|s| - 1]) * 10 + DigitValue(s[|s| - 1])
  }

  /** Reading back the decimal digits of `n` gives `n`. */
  lemma {:induction false} ParseDecimalOfDecimal(n: nat)
    ensures ParseDecimal(Decimal(n)) == n
  {
    var s := Decimal(n);
    if n < 10 {
      assert s[..0] == [];
    } else {
      assert s[..|s| - 1] == Decimal(n / 10);
      ParseDecimalOfDecimal(n / 10);
    }
  }
}
