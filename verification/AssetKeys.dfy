/** When two pages share an asset: the keys built from their routes in `asset_compiler/service.py`. */
module AssetKeys {
  import opened Basics
  import opened Text
  import opened AssetCompiler

  // ---- Asset keys that collide ----

  lemma {:induction false} SegmentsTrailing(route: string, current: string)
    ensures Segments(route + "/", current) == Segments(route, current)
  {
    if route != "" {
      assert (route + "/")[1..] == route[1..] + "/";
      if route[0] == '/' {
        SegmentsTrailing(route[1..], "");
      } else {
        SegmentsTrailing(route[1..], current + [route[0]]);
      }
    }
  }

  function Underscored(text: string): string {
    ReplaceChar(text, '-', '_')
  }

  lemma UnderscoredAppend(a: string, b: string)
    ensures Underscored(a + b) == Underscored(a) + Underscored(b)
    ensures Underscored(Underscored(a)) == Underscored(a)
  {
  }

  lemma {:induction false} SegmentsUnderscored(route: string, current: string)
    ensures Segments(Underscored(route), Underscored(current)) == Map(Segments(route, current), Underscored)
  {
    if route != "" {
      assert Underscored(route)[0] == '/' <==> route[0] == '/';
      assert Underscored(route)[1..] == Underscored(route[1..]);
      if route[0] == '/' {
        SegmentsUnderscored(route[1..], "");
        assert Underscored("") == "";
        var rest := Segments(route[1..], "");
        assert Map([current] + rest, Underscored) == [Underscored(current)] + Map(rest, Underscored);
      } else {
        UnderscoredAppend(current, [route[0]]);
        assert Underscored([route[0]]) == [Underscored(route)[0]];
        SegmentsUnderscored(route[1..], current + [route[0]]);
      }
    }
  }

  lemma {:induction false} JoinUnderscored(parts: seq<string>)
    ensures Underscored(Join(Map(parts, Underscored), ".")) == Underscored(Join(parts, "."))
  {
    if parts != [] {
      UnderscoredAppend(parts[0], "");
      if |parts| > 1 {
        JoinUnderscored(parts[1..]);
        assert Map(parts, Underscored)[1..] == Map(parts[1..], Underscored);
        UnderscoredAppend(parts[0], ".");
        UnderscoredAppend(Underscored(parts[0]), ".");
        UnderscoredAppend(parts[0] + ".", Join(parts[1..], "."));
        UnderscoredAppend(Underscored(parts[0]) + ".", Join(Map(parts, Underscored)[1..], "."));
      }
    }
  }

  lemma KeyUnderscored(systemCode: string, segments: seq<string>)
    ensures Underscored(Join([Lower(systemCode)] + Map(segments, Underscored), "."))
         == Underscored(Join([Lower(systemCode)] + segments, "."))
  {
    var a, b := [Lower(systemCode)] + segments, [Lower(systemCode)] + Map(segments, Underscored);
    JoinUnderscored(a);
    JoinUnderscored(b);
    assert Map(a, Underscored) == Map(b, Underscored) by {
      forall i | 0 <= i < |a| ensures Underscored(a[i]) == Underscored(b[i]) {
        UnderscoredAppend(a[i], "");
      }
    }
  }

  /** Pages share an asset whenever their routes differ only in a slash at the end, or in `-` and `_`. */
  lemma AssetKeysCollide(systemCode: string, route: string, title: Option<string>)
    ensures AssetKey(systemCode, route + "/", title) == AssetKey(systemCode, route, title)
    ensures AssetKey(systemCode, Underscored(route), title) == AssetKey(systemCode, route, title)
  {
    SegmentsTrailing(route, "");
    SegmentsUnderscored(route, "");
    assert Underscored("") == "";
    KeyUnderscored(systemCode, Segments(route, ""));
  }

  // ---- And those that do not ----

  predicate Plain(segment: string) {
    segment != "" && '/' !in segment
  }

  function Slashed(segments: seq<string>): string {
    if segments == [] then "" else "/" + segments[0] + Slashed(segments[1..])
  }

  lemma {:induction false} SegmentTaken(text: string, rest: string, current: string)
    requires '/' !in text
    ensures Segments(text + rest, current) == Segments(rest, current + text)
  {
    if text != "" {
      assert (text + rest)[1..] == text[1..] + rest;
      SegmentTaken(text[1..], rest, current + [text[0]]);
      assert current + [text[0]] + text[1..] == current + text;
    } else {
      assert text + rest == rest && current + text == current;
    }
  }

  /** A route is split into the segments between its slashes. */
  lemma {:induction false} SegmentsMeaning(segments: seq<string>)
    requires forall s | s in segments :: Plain(s)
    ensures Segments(Slashed(segments), "") == segments
  {
    if segments != [] {
      var rest := Slashed(segments[1..]);
      assert Plain(segments[0]);
      assert Slashed(segments)[1..] == segments[0] + rest;
      SegmentTaken(segments[0], rest, "");
      assert "" + segments[0] == segments[0];
      SegmentsMeaning(segments[1..]);
      SegmentEnds(segments[0], segments[1..]);
    }
  }

  lemma SegmentEnds(first: string, rest: seq<string>)
    requires first != "" && forall s | s in rest :: Plain(s)
    ensures Segments(Slashed(rest), first) == [first] + Segments(Slashed(rest), "")
  {
    if rest != [] {
      assert Slashed(rest)[0] == '/' && Slashed(rest)[1..] == rest[0] + Slashed(rest[1..]);
    }
  }

  predicate Dotless(segment: string) {
    segment != "" && '.' !in segment && '-' !in segment
  }

  lemma {:induction false} CutDotless(text: string, rest: string)
    requires '.' !in text
    ensures CutAt(text + "." + rest, '.') == text && CutAt(text, '.') == text
  {
    if text != "" {
      assert (text + "." + rest)[1..] == text[1..] + "." + rest;
      CutDotless(text[1..], rest);
    }
  }

  lemma JoinHead(parts: seq<string>)
    requires parts != [] && forall s | s in parts :: Dotless(s)
    ensures CutAt(Join(parts, "."), '.') == parts[0]
    ensures |parts| == 1 <==> Join(parts, ".") == parts[0]
    ensures |parts| > 1 ==> Join(parts, ".")[|parts[0]| + 1..] == Join(parts[1..], ".")
  {
    assert Dotless(parts[0]);
    if |parts| > 1 {
      CutDotless(parts[0], Join(parts[1..], "."));
      assert |Join(parts, ".")| > |parts[0]|;
    } else {
      CutDotless(parts[0], "");
    }
  }

  lemma {:induction false} JoinInjective(a: seq<string>, b: seq<string>)
    requires a != [] && b != [] && (forall s | s in a :: Dotless(s)) && (forall s | s in b :: Dotless(s))
    requires Join(a, ".") == Join(b, ".")
    ensures a == b
  {
    JoinHead(a);
    JoinHead(b);
    if |a| > 1 {
      JoinInjective(a[1..], b[1..]);
      assert a == [a[0]] + a[1..] && b == [b[0]] + b[1..];
    } else {
      assert a == [a[0]] && b == [b[0]];
    }
  }

  lemma UnderscoredPlain(text: string)
    ensures '-' !in text ==> Underscored(text) == text
  {
  }

  lemma {:induction false} DotlessJoin(parts: seq<string>)
    requires forall s | s in parts :: Dotless(s)
    ensures '-' !in Join(parts, ".")
  {
    if |parts| > 1 {
      DotlessJoin(parts[1..]);
      assert Dotless(parts[0]);
      assert Join(parts, ".") == parts[0] + "." + Join(parts[1..], ".");
    } else if |parts| == 1 {
      assert Dotless(parts[0]);
    }
  }

  lemma KeyTail(systemCode: string, segments: seq<string>)
    requires segments != []
    ensures Underscored(Join([Lower(systemCode)] + segments, "."))
         == Underscored(Lower(systemCode) + ".") + Underscored(Join(segments, "."))
  {
    var parts := [Lower(systemCode)] + segments;
    assert parts[1..] == segments;
    UnderscoredAppend(Lower(systemCode) + ".", Join(segments, "."));
  }

  /** Routes with segments share a key exactly if their segments joined by dots are the same up to `-` and
      `_`; without dots and hyphens in them, exactly if the segments are the same. */
  lemma AssetKeyMeaning(systemCode: string, route: string, other: string, title: Option<string>, otherTitle: Option<string>)
    requires Segments(route, "") != [] && Segments(other, "") != []
    ensures var a, b := Segments(route, ""), Segments(other, "");
            && (AssetKey(systemCode, route, title) == AssetKey(systemCode, other, otherTitle) <==>
                Underscored(Join(a, ".")) == Underscored(Join(b, ".")))
            && ((forall s | s in a + b :: Dotless(s)) ==>
                  (AssetKey(systemCode, route, title) == AssetKey(systemCode, other, otherTitle) <==> a == b))
  {
    var a, b := Segments(route, ""), Segments(other, "");
    KeyTail(systemCode, a);
    KeyTail(systemCode, b);
    var head := Underscored(Lower(systemCode) + ".");
    var x, y := Underscored(Join(a, ".")), Underscored(Join(b, "."));
    assert (head + x)[|head|..] == x && (head + y)[|head|..] == y;
    if forall s | s in a + b :: Dotless(s) {
      DotlessKeys(a, b);
    }
  }

  lemma DotlessKeys(a: seq<string>, b: seq<string>)
    requires a != [] && b != [] && forall s | s in a + b :: Dotless(s)
    ensures Underscored(Join(a, ".")) == Underscored(Join(b, ".")) <==> a == b
  {
    assert forall s | s in a :: s in a + b;
    assert forall s | s in b :: s in a + b;
    DotlessJoin(a);
    DotlessJoin(b);
    UnderscoredPlain(Join(a, "."));
    UnderscoredPlain(Join(b, "."));
    if Join(a, ".") == Join(b, ".") {
      JoinInjective(a, b);
    }
  }

  /** A page without segments is keyed by its title, or as `page` if it has none. */
  lemma RootKeyMeaning(systemCode: string, route: string, title: Option<string>)
    requires Segments(route, "") == []
    ensures AssetKey(systemCode, route, title) ==
            Lower(systemCode) + "." + Lower(ReplaceChar(Strip(if title.Some? && title.value != "" then title.value else "page"), ' ', '_'))
  {
    var name := Lower(ReplaceChar(Strip(if title.Some? && title.value != "" then title.value else "page"), ' ', '_'));
    JoinSnoc([Lower(systemCode)], name, ".");
    assert [Lower(systemCode)] + [name] == [Lower(systemCode), name];
  }
}
