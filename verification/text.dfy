/** The two Python string operations the ranking parser relies on:
    `str.replace(' ', '')` and `str.split(sep)` with an explicit one-character separator. */
module Text {

  /** `s.replace(' ', '')`: every U+0020 removed, every other character kept in order. */
  function RemoveSpaces(s: string): (r: string)
    ensures multiset(r) == multiset(s)[' ' := 0]
    ensures ' ' !in r
    ensures |r| <= |s|
  {
    if |s| == 0 then ""
    else
      assert s == [s[0]] + s[1..];
      var rest := RemoveSpaces(s[1..]);
      if s[0] == ' ' then rest else [s[0]] + rest
  }

  /** Removing spaces commutes with concatenation, so the characters that stay keep their order. */
  lemma {:induction false} RemoveSpacesAppend(a: string, b: string)
    ensures RemoveSpaces(a + b) == RemoveSpaces(a) + RemoveSpaces(b)
    decreases |a|
  {
    if |a| == 0 {
      assert a + b == b;
    } else {
      assert (a + b)[0] == a[0];
      assert (a + b)[1..] == a[1..] + b;
      RemoveSpacesAppend(a[1..], b);
    }
  }

  /** A string without spaces is left unchanged. */
  lemma {:induction false} RemoveSpacesNoSpace(s: string)
    requires ' ' !in s
    ensures RemoveSpaces(s) == s
    decreases |s|
  {
    if |s| != 0 {
      assert ' ' !in s[1..] by {
        forall j | 0 <= j < |s[1..]| ensures s[1..][j] != ' ' {
          assert s[1..][j] == s[j + 1];
        }
      }
      RemoveSpacesNoSpace(s[1..]);
    }
  }

  /** Inverse of `SplitOn`: `sep.join(pieces)`. */
  function Join(pieces: seq<string>, sep: char): string
    requires |pieces| >= 1
    decreases |pieces|
  {
    if |pieces| == 1 then pieces[0] else pieces[0] + [sep] + Join(pieces[1..], sep)
  }

  /** Python's `s.split(sep)`: the maximal separator-free pieces between occurrences of `sep`,
      including empty pieces; the empty string splits into one empty piece. */
  function SplitOn(s: string, sep: char): (r: seq<string>)
    ensures |r| >= 1
    ensures forall i :: 0 <= i < |r| ==> sep !in r[i]
    decreases |s|
  {
    if |s| == 0 then [""]
    else
      var rest := SplitOn(s[1..], sep);
      if s[0] == sep then [""] + rest
      else [[s[0]] + rest[0]] + rest[1..]
  }

  /** There is one piece more than there are separators. */
  lemma {:induction false} SplitOnCount(s: string, sep: char)
    ensures |SplitOn(s, sep)| == multiset(s)[sep] + 1
    decreases |s|
  {
    if |s| != 0 {
      SplitOnCount(s[1..], sep);
      assert s == [s[0]] + s[1..];
      assert multiset(s) == multiset([s[0]]) + multiset(s[1..]);
    }
  }

  /** A character absent from the split string is absent from every piece. */
  lemma {:induction false} SplitOnAvoids(s: string, sep: char, ch: char)
    requires ch !in s
    ensures forall i :: 0 <= i < |SplitOn(s, sep)| ==> ch !in SplitOn(s, sep)[i]
    decreases |s|
  {
    if |s| != 0 {
      assert ch !in s[1..] by {
        forall j | 0 <= j < |s[1..]| ensures s[1..][j] != ch {
          assert s[1..][j] == s[j + 1];
        }
      }
      SplitOnAvoids(s[1..], sep, ch);
      var rest := SplitOn(s[1..], sep);
      if s[0] != sep {
        assert ch !in [s[0]] + rest[0];
      }
    }
  }

  /** Round trip: joining the pieces with the separator restores the split string. */
  lemma {:induction false} JoinSplitOn(s: string, sep: char)
    ensures Join(SplitOn(s, sep), sep) == s
    decreases |s|
  {
    if |s| != 0 {
      var rest := SplitOn(s[1..], sep);
      JoinSplitOn(s[1..], sep);
      assert Join(rest, sep) == s[1..];
      assert s == [s[0]] + s[1..];
      if s[0] == sep {
        var r := [""] + rest;
        assert SplitOn(s, sep) == r;
        assert r[1..] == rest;
        assert Join(r, sep) == "" + [sep] + Join(rest, sep);
      } else {
        var r := [[s[0]] + rest[0]] + rest[1..];
        assert SplitOn(s, sep) == r;
        JoinFirst(rest, sep, [s[0]]);
      }
    }
  }

  /** Prepending characters to the first piece prepends them to the joined string. */
  lemma JoinFirst(pieces: seq<string>, sep: char, p: string)
    requires |pieces| >= 1
    ensures Join([p + pieces[0]] + pieces[1..], sep) == p + Join(pieces, sep)
  {
    var r := [p + pieces[0]] + pieces[1..];
    if |pieces| > 1 {
      assert r[1..] == pieces[1..];
    }
  }

  /** Splitting a string that holds no separator yields that string alone. */
  lemma SplitOnWithoutSeparator(s: string, sep: char)
    requires sep !in s
    ensures SplitOn(s, sep) == [s]
  {
    SplitOnCount(s, sep);
    assert multiset(s)[sep] == 0;
    var r := SplitOn(s, sep);
    JoinSplitOn(s, sep);
    assert Join(r, sep) == r[0];
  }

  /** Splitting `p + sep + t` peels off the separator-free prefix `p` as the first piece. */
  lemma {:induction false} SplitOnPrefix(p: string, t: string, sep: char)
    requires sep !in p
    ensures SplitOn(p + [sep] + t, sep) == [p] + SplitOn(t, sep)
    decreases |p|
  {
    var s := p + [sep] + t;
    if |p| == 0 {
      assert s == [sep] + t;
      assert s[1..] == t;
    } else {
      assert s[0] == p[0];
      assert s[1..] == p[1..] + [sep] + t;
      assert sep !in p[1..];
      SplitOnPrefix(p[1..], t, sep);
      assert [p[0]] + p[1..] == p;
    }
  }

  /** Round trip in the other direction: joining separator-free pieces and splitting again
      returns the pieces, so `SplitOn` is exactly the inverse of `Join`. */
  lemma {:induction false} SplitOnJoin(pieces: seq<string>, sep: char)
    requires |pieces| >= 1
    requires forall i :: 0 <= i < |pieces| ==> sep !in pieces[i]
    ensures SplitOn(Join(pieces, sep), sep) == pieces
    decreases |pieces|
  {
    if |pieces| == 1 {
      SplitOnWithoutSeparator(pieces[0], sep);
    } else {
      SplitOnJoin(pieces[1..], sep);
      SplitOnPrefix(pieces[0], Join(pieces[1..], sep), sep);
      assert [pieces[0]] + pieces[1..] == pieces;
    }
  }

  /** Joining pieces that avoid `ch` with a separator other than `ch` gives a string avoiding `ch`. */
  lemma {:induction false} JoinAvoids(pieces: seq<string>, sep: char, ch: char)
    requires |pieces| >= 1 && sep != ch
    requires forall i :: 0 <= i < |pieces| ==> ch !in pieces[i]
    ensures ch !in Join(pieces, sep)
    decreases |pieces|
  {
    if |pieces| > 1 {
      JoinAvoids(pieces[1..], sep, ch);
    }
  }
}
