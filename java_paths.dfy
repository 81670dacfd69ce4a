/**
 * java.nio.file.Path on a Unix file system, as far as the repository layout uses it:
 * Paths.get normalises a string by dropping empty name elements (repeated and trailing
 * slashes), Path.resolve(String) appends a relative path and replaces the receiver by an
 * absolute one, and toString joins the names with '/'.
 */
module JavaPaths {
  import opened JavaLang

  datatype Path = Path(absolute: bool, names: seq<string>)

  /** The pieces that are not empty, in order. */
  function NonEmpty(ps: seq<string>): (r: seq<string>)
    ensures forall i :: 0 <= i < |r| ==> r[i] != ""
    decreases |ps|
  {
    if |ps| == 0 then [] else (if ps[0] == "" then [] else [ps[0]]) + NonEmpty(ps[1..])
  }

  /** Paths.get(s): absolute when s starts with '/', names are the non-empty pieces between slashes. */
  function Get(s: string): Path {
    Path(|s| > 0 && s[0] == '/', NonEmpty(Pieces(s, '/')))
  }

  /** Path.resolve(other): an absolute other wins, an empty other changes nothing, otherwise the names are appended. */
  function Resolve(p: Path, other: string): Path {
    var q := Get(other);
    if q.absolute then q
    else if other == "" then p
    else Path(p.absolute, p.names + q.names)
  }

  function ToString(p: Path): string {
    (if p.absolute then "/" else "") + Join(p.names, '/')
  }

  // ---------------------------------------------------------------------------
  // Lemmas about names

  lemma {:induction false} NonEmptyAppend(a: seq<string>, b: seq<string>)
    ensures NonEmpty(a + b) == NonEmpty(a) + NonEmpty(b)
    decreases |a|
  {
    if |a| > 0 {
      assert (a + b)[0] == a[0];
      assert (a + b)[1..] == a[1..] + b;
      NonEmptyAppend(a[1..], b);
      var h := if a[0] == "" then [] else [a[0]];
      assert NonEmpty(a + b) == h + NonEmpty(a[1..] + b);
      assert NonEmpty(a) == h + NonEmpty(a[1..]);
    } else {
      assert a + b == b;
    }
  }

  lemma {:induction false} NonEmptyOfNonEmpty(ps: seq<string>)
    requires forall i :: 0 <= i < |ps| ==> ps[i] != ""
    ensures NonEmpty(ps) == ps
    decreases |ps|
  {
    if |ps| > 0 {
      NonEmptyOfNonEmpty(ps[1..]);
    }
  }

  lemma {:induction false} JoinSnoc(ns: seq<string>, w: string, sep: char)
    ensures Join(ns + [w], sep) == if ns == [] then w else Join(ns, sep) + [sep] + w
    decreases |ns|
  {
    if |ns| >= 2 {
      assert (ns + [w])[1..] == ns[1..] + [w];
      JoinSnoc(ns[1..], w, sep);
    } else if |ns| == 1 {
      assert (ns + [w])[1..] == [w];
    }
  }

  /** Gluing the pieces back with the separator gives the string back. */
  lemma {:induction false} JoinPieces(s: string, sep: char)
    ensures Join(Pieces(s, sep), sep) == s
    decreases |s|
  {
    if |s| > 0 {
      var rest := Pieces(s[1..], sep);
      JoinPieces(s[1..], sep);
      if s[0] == sep {
        assert Pieces(s, sep) == [""] + rest;
        assert ([""] + rest)[1..] == rest;
      } else {
        var ps := Pieces(s, sep);
        assert ps == [[s[0]] + rest[0]] + rest[1..];
        if |rest| == 1 {
          assert s == [s[0]] + s[1..];
        } else {
          assert ps[1..] == rest[1..];
          assert Join(rest, sep) == rest[0] + [sep] + Join(rest[1..], sep);
          assert s == [s[0]] + s[1..];
        }
      }
    }
  }

  /** Replacing the separator c by d (d not in s) does not move any piece boundary. */
  lemma {:induction false} PiecesReplace(s: string, c: char, d: char)
    requires d !in s
    ensures Pieces(Replace(s, c, d), d) == Pieces(s, c)
    decreases |s|
  {
    if |s| > 0 {
      var r := Replace(s, c, d);
      assert r[1..] == Replace(s[1..], c, d);
      PiecesReplace(s[1..], c, d);
      if s[0] == c {
        assert r[0] == d;
      } else {
        assert r[0] == s[0] && s[0] != d;
      }
    }
  }

  /** List algebra for PiecesAppend: prefixing the head piece commutes with extending the last one. */
  lemma ExtendLastAfterHead(c: char, rest: seq<string>, t: string)
    requires |rest| >= 1
    ensures var restT := rest[..|rest| - 1] + [rest[|rest| - 1] + t];
      var ps := [[c] + rest[0]] + rest[1..];
      [[c] + restT[0]] + restT[1..] == ps[..|ps| - 1] + [ps[|ps| - 1] + t]
  {
    var restT := rest[..|rest| - 1] + [rest[|rest| - 1] + t];
    var ps := [[c] + rest[0]] + rest[1..];
    if |rest| == 1 {
      assert restT == [rest[0] + t];
      assert [c] + (rest[0] + t) == ([c] + rest[0]) + t;
    } else {
      assert restT[0] == rest[0];
      assert restT[1..] == rest[1..|rest| - 1] + [rest[|rest| - 1] + t];
      assert ps[..|ps| - 1] == [[c] + rest[0]] + rest[1..|rest| - 1];
    }
  }

  /** Appending a separator-free suffix to a string extends its last piece. */
  lemma {:induction false} PiecesAppend(s: string, t: string, sep: char)
    requires sep !in t
    ensures var ps := Pieces(s, sep);
      Pieces(s + t, sep) == ps[..|ps| - 1] + [ps[|ps| - 1] + t]
    decreases |s|
  {
    if |s| == 0 {
      assert s + t == t;
      PiecesWithoutSeparator(t, sep);
      assert Pieces(s, sep) == [""];
    } else {
      var st := s + t;
      assert st[0] == s[0];
      assert st[1..] == s[1..] + t;
      PiecesAppend(s[1..], t, sep);
      var rest := Pieces(s[1..], sep);
      if s[0] == sep {
        assert Pieces(s, sep) == [""] + rest;
        assert Pieces(st, sep) == [""] + Pieces(s[1..] + t, sep);
      } else {
        assert Pieces(s, sep) == [[s[0]] + rest[0]] + rest[1..];
        var restT := Pieces(s[1..] + t, sep);
        assert Pieces(st, sep) == [[s[0]] + restT[0]] + restT[1..];
        ExtendLastAfterHead(s[0], rest, t);
      }
    }
  }

  /** A string that does not end with the separator has a non-empty last piece. */
  lemma {:induction false} LastPieceNonEmpty(s: string, sep: char)
    requires |s| > 0 && s[|s| - 1] != sep
    ensures var ps := Pieces(s, sep); ps[|ps| - 1] != ""
  {
    var init := s[..|s| - 1];
    assert s == init + [s[|s| - 1]];
    PiecesAppend(init, [s[|s| - 1]], sep);
  }

  /** The names of x + t are those of x with t appended to the last one. */
  lemma GetAppend(x: string, t: string)
    requires |x| > 0 && x[|x| - 1] != '/'
    requires '/' !in t
    ensures |Get(x).names| > 0
    ensures var ns := Get(x).names;
      Get(x + t) == Path(Get(x).absolute, ns[..|ns| - 1] + [ns[|ns| - 1] + t])
  {
    var ps := Pieces(x, '/');
    var n := |ps|;
    PiecesAppend(x, t, '/');
    LastPieceNonEmpty(x, '/');
    var last := ps[n - 1];
    assert ps == ps[..n - 1] + [last];
    NonEmptyAppend(ps[..n - 1], [last]);
    NonEmptyAppend(ps[..n - 1], [last + t]);
    var front := NonEmpty(ps[..n - 1]);
    assert Get(x).names == front + [last];
    assert Get(x + t).names == front + [last + t];
    assert (x + t)[0] == x[0];
  }

  /** Appending t to the last name of a non-empty path appends t to its string form. */
  lemma ToStringExtendLast(abs: bool, ns: seq<string>, last: string, t: string)
    ensures ToString(Path(abs, ns + [last + t])) == ToString(Path(abs, ns + [last])) + t
  {
    JoinSnoc(ns, last, '/');
    JoinSnoc(ns, last + t, '/');
    var pre := if abs then "/" else "";
    if ns == [] {
      assert pre + (last + t) == (pre + last) + t;
    } else {
      var j := Join(ns, '/');
      assert pre + (j + ['/'] + (last + t)) == (pre + (j + ['/'] + last)) + t;
    }
  }

  /** Resolve on a non-empty argument: an absolute argument wins, a relative one is appended. */
  lemma ResolveNonEmpty(p: Path, other: string)
    requires other != ""
    ensures var q := Get(other);
      Resolve(p, other) == if q.absolute then q else Path(p.absolute, p.names + q.names)
  {
  }

  /** The path arithmetic behind ResolveAppend, stated on already-parsed arguments. */
  lemma ResolvedExtendLast(p: Path, q: Path, qt: Path, t: string)
    requires |q.names| > 0
    requires qt == Path(q.absolute, q.names[..|q.names| - 1] + [q.names[|q.names| - 1] + t])
    ensures var r := if q.absolute then q else Path(p.absolute, p.names + q.names);
      var rt := if qt.absolute then qt else Path(p.absolute, p.names + qt.names);
      ToString(rt) == ToString(r) + t
  {
    var front, last := q.names[..|q.names| - 1], q.names[|q.names| - 1];
    assert q.names == front + [last];
    if q.absolute {
      ToStringExtendLast(true, front, last, t);
    } else {
      var base := p.names + front;
      assert p.names + q.names == base + [last];
      assert p.names + qt.names == base + [last + t];
      ToStringExtendLast(p.absolute, base, last, t);
    }
  }

  /**
   * Resolving a name and then appending a slash-free suffix to the string form equals
   * resolving the name with that suffix: the suffix only extends the last name element.
   */
  lemma ResolveAppend(p: Path, x: string, t: string)
    requires |x| > 0 && x[|x| - 1] != '/'
    requires '/' !in t
    ensures ToString(Resolve(p, x + t)) == ToString(Resolve(p, x)) + t
  {
    GetAppend(x, t);
    ResolveNonEmpty(p, x);
    ResolveNonEmpty(p, x + t);
    ResolvedExtendLast(p, Get(x), Get(x + t), t);
  }
}
