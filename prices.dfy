/**
  The price text of a product: the piece used as the cache value
  (`text.split('₹')[1]`) and the text handed to `float` for the record
  (`raw.strip('₹').replace(',', '')`).
 */
module Prices {
  import opened Wrappers
  import opened Strings

  /** The Indian rupee sign, U+20B9. */
  const Rupee: char := '\U{20B9}'

  /** `text.split('₹')[1]`, or `None` where the index `[1]` raises. */
  function RawPrice(text: string): Option<string>
  {
    var pieces := Split(text, Rupee);
    if |pieces| >= 2 then Some(pieces[1]) else None
  }

  /** The index raises exactly when the text has no rupee sign, and the raw price holds none. */
  lemma RawPriceSpec(text: string)
    ensures RawPrice(text).Some? <==> Rupee in text
    ensures RawPrice(text).Some? ==> Rupee !in RawPrice(text).value
  {
    SplitSpec(text, Rupee);
    CountBounds(text, Rupee);
  }

  /** The raw price runs from just after the first rupee sign up to the next one or the end. */
  lemma RawPriceBetweenSigns(text: string)
    requires Rupee in text
    ensures var first := IndexOf(text, Rupee);
            var after := text[first + 1..];
            RawPrice(text) == Some(after[..IndexOf(after, Rupee)])
  {
    var first := IndexOf(text, Rupee);
    SplitAtFirst(text, Rupee);
    SplitAtFirst(text[first + 1..], Rupee);
    assert Split(text, Rupee)[1] == Split(text, Rupee)[1..][0];
  }

  /** `raw.strip('₹').replace(',', '')`. */
  function Normalise(raw: string): string
  {
    RemoveAll(Strip(raw, Rupee), ',')
  }

  /** No comma survives, and every character other than a comma or a rupee sign does. */
  lemma NormaliseSpec(raw: string)
    ensures ',' !in Normalise(raw)
    ensures multiset(Normalise(raw)) <= multiset(raw)
    ensures forall x :: x != ',' && x != Rupee ==> multiset(Normalise(raw))[x] == multiset(raw)[x]
    ensures Rupee !in raw ==> Normalise(raw) == RemoveAll(raw, ',')
  {
    var stripped := Strip(raw, Rupee);
    StripSpec(raw, Rupee);
    RemoveAllSpec(stripped, ',');
    RemoveAllMultiset(stripped, ',');
    assert forall x :: x != Rupee ==> multiset(stripped)[x] == multiset(raw)[x] by {
      forall x | x != Rupee ensures multiset(stripped)[x] == multiset(raw)[x] {
        assert (multiset(raw) - multiset(stripped))[x] == 0 by {
          assert |multiset(raw) - multiset(stripped)| == |raw| - |stripped|;
          MultisetOnlyOne(multiset(raw) - multiset(stripped), Rupee, x);
        }
      }
    }
  }

  /** A multiset whose size is its count of `c` holds nothing but `c`. */
  lemma MultisetOnlyOne(m: multiset<char>, c: char, x: char)
    requires m[c] == |m|
    requires x != c
    ensures m[x] == 0
  {
    var only := multiset{}[c := m[c]];
    assert m == (m - only) + only;
    assert |m - only| == 0;
    assert (m - only)[x] == m[x];
  }

  /** The raw price has no rupee sign, so stripping it does nothing: only commas go. */
  lemma NormaliseRawPrice(text: string)
    requires Rupee in text
    ensures RawPrice(text).Some?
    ensures Normalise(RawPrice(text).value) == RemoveAll(RawPrice(text).value, ',')
  {
    RawPriceSpec(text);
    NormaliseSpec(RawPrice(text).value);
  }
}
