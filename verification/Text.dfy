/** The text normalisation used throughout the backend, on strings of characters. */
module Text {
  import opened Basics

  /** Python's whitespace, the characters removed by `str.strip`. */
  predicate IsSpace(c: char) {
    || '\U{0009}' <= c <= '\U{000D}'
    || '\U{001C}' <= c <= '\U{0020}'
    || c == '\U{0085}' || c == '\U{00A0}' || c == '\U{1680}'
    || '\U{2000}' <= c <= '\U{200A}'
    || c == '\U{2028}' || c == '\U{2029}' || c == '\U{202F}' || c == '\U{205F}' || c == '\U{3000}'
  }

  function StripLeft(s: string): string {
    if s != [] && IsSpace(s[0]) then StripLeft(s[1..]) else s
  }

  function StripRight(s: string): string {
    if s != [] && IsSpace(s[|s| - 1]) then StripRight(s[..|s| - 1]) else s
  }

  function Strip(s: string): string {
    StripRight(StripLeft(s))
  }

  /** `_normalize_text`: absent text reads as the empty string. */
  function Normalized(value: Option<string>): string {
    match value
    case None => ""
    case Some(s) => Strip(s)
  }

  /** ASCII lower case. */
  function Lower(s: string): string {
    seq(|s|, i requires 0 <= i < |s| => if 'A' <= s[i] <= 'Z' then s[i] - 'A' + 'a' else s[i])
  }

  /** What comes before the first `c`, or everything. */
  function CutAt(text: string, c: char): string {
    if text == "" || text[0] == c then "" else [text[0]] + CutAt(text[1..], c)
  }

  function Join(parts: seq<string>, separator: string): string {
    if parts == [] then "" else if |parts| == 1 then parts[0] else parts[0] + separator + Join(parts[1..], separator)
  }

  /** `needle in haystack`. */
  predicate Contains(haystack: string, needle: string) {
    needle <= haystack || (haystack != [] && Contains(haystack[1..], needle))
  }

  /** Code point order on strings. */
  predicate StrLe(a: string, b: string) {
    || a == []
    || (b != [] && (a[0] < b[0] || (a[0] == b[0] && StrLe(a[1..], b[1..]))))
  }

  lemma {:induction false} StripRightPrefix(s: string)
    ensures StripRight(s) <= s
    ensures StripRight(s) != [] ==> !IsSpace(StripRight(s)[|StripRight(s)| - 1])
  {
    if s != [] && IsSpace(s[|s| - 1]) {
      StripRightPrefix(s[..|s| - 1]);
    }
  }

  lemma {:induction false} StripLeftClean(s: string)
    ensures StripLeft(s) != [] ==> !IsSpace(StripLeft(s)[0])
  {
    if s != [] && IsSpace(s[0]) {
      StripLeftClean(s[1..]);
    }
  }

  /** Stripping is idempotent, so a stored label survives being normalised again. */
  lemma StripIdempotent(s: string)
    ensures Strip(Strip(s)) == Strip(s)
  {
    StripLeftClean(s);
    StripRightPrefix(StripLeft(s));
    assert StripLeft(Strip(s)) == Strip(s);
  }

  lemma {:induction false} StrLeTotal(a: string, b: string)
    ensures StrLe(a, b) || StrLe(b, a)
  {
    if a != [] && b != [] {
      StrLeTotal(a[1..], b[1..]);
    }
  }

  lemma {:induction false} StrLeAntisymmetric(a: string, b: string)
    requires StrLe(a, b) && StrLe(b, a)
    ensures a == b
  {
    if a != [] && b != [] {
      StrLeAntisymmetric(a[1..], b[1..]);
      assert a == [a[0]] + a[1..] && b == [b[0]] + b[1..];
    }
  }

  lemma {:induction false} StrLeTransitive(a: string, b: string, c: string)
    requires StrLe(a, b) && StrLe(b, c)
    ensures StrLe(a, c)
  {
    if a != [] && b != [] && c != [] && a[0] == b[0] == c[0] {
      StrLeTransitive(a[1..], b[1..], c[1..]);
    }
  }

  /** The three order laws at once, for callers that sort by text. */
  lemma StrOrder()
    ensures forall a, b :: StrLe(a, b) || StrLe(b, a)
    ensures forall a, b :: StrLe(a, b) && StrLe(b, a) ==> a == b
    ensures forall a, b, c :: StrLe(a, b) && StrLe(b, c) ==> StrLe(a, c)
  {
    forall a, b ensures StrLe(a, b) || StrLe(b, a) { StrLeTotal(a, b); }
    forall a, b | StrLe(a, b) && StrLe(b, a) ensures a == b { StrLeAntisymmetric(a, b); }
    forall a, b, c | StrLe(a, b) && StrLe(b, c) ensures StrLe(a, c) { StrLeTransitive(a, b, c); }
  }

  lemma PlainText(text: string)
    requires text != "" && forall i | 0 <= i < |text| :: !IsSpace(text[i]) && !('A' <= text[i] <= 'Z')
    ensures Strip(text) == text && Lower(Strip(text)) == text
  {
    assert StripLeft(text) == text;
    assert StripRight(text) == text;
  }

  // ---- What the functions mean ----

  ghost predicate Blank(s: string) {
    forall c | c in s :: IsSpace(c)
  }

  ghost predicate Trim(s: string) {
    s != [] ==> !IsSpace(s[0]) && !IsSpace(s[|s| - 1])
  }

  ghost predicate Around(s: string, before: string, r: string, after: string) {
    s == before + r + after && Blank(before) && Blank(after) && Trim(r)
  }

  lemma {:induction false} StripLeftSplit(s: string) returns (before: string)
    ensures s == before + StripLeft(s) && Blank(before)
  {
    if s != [] && IsSpace(s[0]) {
      before := StripLeftSplit(s[1..]);
      before := [s[0]] + before;
    } else {
      before := [];
    }
  }

  lemma {:induction false} StripRightSplit(s: string) returns (after: string)
    ensures s == StripRight(s) + after && Blank(after)
  {
    if s != [] && IsSpace(s[|s| - 1]) {
      after := StripRightSplit(s[..|s| - 1]);
      after := after + [s[|s| - 1]];
    } else {
      after := [];
    }
  }

  lemma StripAround(s: string) returns (before: string, after: string)
    ensures Around(s, before, Strip(s), after)
  {
    before := StripLeftSplit(s);
    after := StripRightSplit(StripLeft(s));
    StripLeftClean(s);
    StripRightPrefix(StripLeft(s));
    assert s == before + (Strip(s) + after) == before + Strip(s) + after;
  }

  lemma {:induction false} StripLeftOf(before: string, r: string, after: string)
    requires Blank(before) && Trim(r) && r != []
    ensures StripLeft(before + r + after) == r + after
  {
    var s := before + r + after;
    if before == [] {
      assert s == r + after;
    } else {
      assert s[0] == before[0] && before[0] in before;
      assert s[1..] == before[1..] + r + after;
      StripLeftOf(before[1..], r, after);
    }
  }

  lemma {:induction false} StripRightOf(r: string, after: string)
    requires Blank(after) && Trim(r) && r != []
    ensures StripRight(r + after) == r
  {
    var s := r + after;
    if after == [] {
      assert s == r;
    } else {
      assert s[|s| - 1] == after[|after| - 1] && after[|after| - 1] in after;
      assert s[..|s| - 1] == r + after[..|after| - 1];
      StripRightOf(r, after[..|after| - 1]);
    }
  }

  lemma {:induction false} StripBlank(s: string)
    requires Blank(s)
    ensures Strip(s) == []
  {
    if s != [] {
      assert s[0] in s;
      assert StripLeft(s) == StripLeft(s[1..]);
      StripBlank(s[1..]);
    }
  }

  /** A text stripped is what is left of it without blank ends, and nothing else is. */
  lemma StripMeaning(s: string, r: string)
    ensures r == Strip(s) <==> exists before, after :: Around(s, before, r, after)
  {
    var b, a := StripAround(s);
    if before, after :| Around(s, before, r, after) {
      if r == [] {
        assert Blank(s) by {
          forall c | c in s ensures IsSpace(c) { assert c in before || c in after; }
        }
        StripBlank(s);
      } else {
        StripLeftOf(before, r, after);
        StripRightOf(r, after);
      }
    }
  }

  ghost predicate FoundAt(haystack: string, needle: string, at: nat) {
    at + |needle| <= |haystack| && haystack[at..at + |needle|] == needle
  }

  /** The needle stands somewhere in the haystack. */
  lemma {:induction false} ContainsMeaning(haystack: string, needle: string)
    ensures Contains(haystack, needle) <==> exists at :: FoundAt(haystack, needle, at)
  {
    if needle <= haystack {
      assert FoundAt(haystack, needle, 0);
    } else if haystack != [] {
      ContainsMeaning(haystack[1..], needle);
      if at: nat :| FoundAt(haystack[1..], needle, at) {
        assert haystack[at + 1..at + 1 + |needle|] == haystack[1..][at..at + |needle|];
        assert FoundAt(haystack, needle, at + 1);
      }
      if at: nat :| FoundAt(haystack, needle, at) {
        assert at == 0 ==> needle <= haystack;
        assert haystack[1..][at - 1..at - 1 + |needle|] == haystack[at..at + |needle|];
        assert FoundAt(haystack[1..], needle, at - 1);
      }
    }
  }

  /** The two texts part at `k`, and the first has the smaller character there. */
  ghost predicate PartsAt(a: string, b: string, k: nat) {
    k < |a| && k < |b| && a[..k] == b[..k] && a[k] < b[k]
  }

  lemma PartsLater(a: string, b: string, k: nat)
    requires PartsAt(a, b, k)
    ensures k > 0 ==> a[0] == b[0]
  {
    assert k > 0 ==> a[..k][0] == a[0] && b[..k][0] == b[0];
  }

  /** Dictionary order by code point. */
  lemma {:induction false} StrLeMeaning(a: string, b: string)
    ensures StrLe(a, b) <==> a <= b || exists k :: PartsAt(a, b, k)
  {
    if a != [] && b != [] {
      if a[0] == b[0] {
        StrLeMeaning(a[1..], b[1..]);
        assert a == [a[0]] + a[1..] && b == [b[0]] + b[1..];
        if k: nat :| PartsAt(a[1..], b[1..], k) {
          assert a[..k + 1] == [a[0]] + a[1..][..k] && b[..k + 1] == [b[0]] + b[1..][..k];
          assert PartsAt(a, b, k + 1);
        }
        if k: nat :| PartsAt(a, b, k) {
          assert k > 0;
          assert a[1..][..k - 1] == a[..k][1..] && b[1..][..k - 1] == b[..k][1..];
          assert PartsAt(a[1..], b[1..], k - 1);
        }
      } else {
        if a[0] < b[0] { assert PartsAt(a, b, 0); }
        if k: nat :| PartsAt(a, b, k) {
          PartsLater(a, b, k);
        }
      }
    }
  }

  /** What comes before the character, and it does not occur there. */
  lemma {:induction false} CutAtMeaning(text: string, c: char)
    ensures CutAt(text, c) <= text && c !in CutAt(text, c)
    ensures |CutAt(text, c)| < |text| ==> text[|CutAt(text, c)|] == c
  {
    if text != "" && text[0] != c {
      CutAtMeaning(text[1..], c);
      assert text == [text[0]] + text[1..];
    }
  }

  /** Parts are joined in order with the separator between any two. */
  lemma {:induction false} JoinSnoc(parts: seq<string>, last: string, separator: string)
    ensures Join(parts + [last], separator) == if parts == [] then last else Join(parts, separator) + separator + last
  {
    if parts != [] {
      var all := parts + [last];
      assert all[1..] == parts[1..] + [last];
      JoinSnoc(parts[1..], last, separator);
      if |parts| == 1 {
        assert Join(all, separator) == parts[0] + separator + Join([last], separator);
      } else {
        var rest := Join(parts[1..], separator);
        assert parts[0] + separator + (rest + separator + last) == parts[0] + separator + rest + separator + last;
      }
    }
  }
}
