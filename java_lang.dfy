/**
 * The parts of the Java platform library the model relies on, stated in Dafny terms:
 * String.split on a one-character separator, String.replace of a character,
 * String.startsWith, String.isBlank, String.hashCode, Objects.hash, and the shape of
 * an argument to equals(Object).
 */
module JavaLang {
  import opened Wrappers

  /** What an `Object` parameter can be: null, an instance of the receiver's class, or another class. */
  datatype Ref<T> = Null | Instance(obj: T) | OtherClass

  /**
   * The exceptions the modelled code can raise. OutOfFuel is not a Java exception: it is the
   * model's bound on a loop or a recursion that Java would pursue without end (a template that
   * never stops changing, a cycle of parent POMs).
   */
  datatype Exception =
    | NullPointer
    | IndexOutOfBounds
    | IllegalArgument(message: string)
    | OutOfFuel

  /** Objects.equals on two possibly-null strings: both null, or equal contents. */
  predicate ObjectsEquals(a: Option<string>, b: Option<string>) {
    a == b
  }

  // ---------------------------------------------------------------------------
  // String.split with a separator that is one ordinary (non-metacharacter) character

  /** Every piece between separators, empty ones included: "a::b" gives ["a", "", "b"]. */
  function Pieces(s: string, sep: char): (r: seq<string>)
    ensures |r| >= 1
    decreases |s|
  {
    if |s| == 0 then [""]
    else
      var rest := Pieces(s[1..], sep);
      if s[0] == sep then [""] + rest
      else [[s[0]] + rest[0]] + rest[1..]
  }

  /** Drops the empty strings from the end of a list, as split with limit 0 does. */
  function DropTrailingEmpty(ps: seq<string>): (r: seq<string>)
    ensures |r| <= |ps| && r == ps[..|r|]
    ensures |r| > 0 ==> r[|r| - 1] != ""
    ensures forall i :: |r| <= i < |ps| ==> ps[i] == ""
    decreases |ps|
  {
    if |ps| > 0 && ps[|ps| - 1] == "" then DropTrailingEmpty(ps[..|ps| - 1]) else ps
  }

  /**
   * String.split(regex) for a regex that is a single ordinary character: when the separator
   * does not occur the result is the whole string (even when it is empty); otherwise the
   * pieces with trailing empty strings removed (so ":".split(":") is empty).
   */
  function Split(s: string, sep: char): seq<string> {
    if sep !in s then [s] else DropTrailingEmpty(Pieces(s, sep))
  }

  /** The pieces joined back with the separator. */
  function Join(parts: seq<string>, sep: char): string
    decreases |parts|
  {
    if |parts| == 0 then ""
    else if |parts| == 1 then parts[0]
    else parts[0] + [sep] + Join(parts[1..], sep)
  }

  lemma {:induction false} PiecesWithoutSeparator(s: string, sep: char)
    requires sep !in s
    ensures Pieces(s, sep) == [s]
    decreases |s|
  {
    if |s| > 0 {
      PiecesWithoutSeparator(s[1..], sep);
      assert [s[0]] + s[1..] == s;
    }
  }

  lemma {:induction false} PiecesAfterFirstSeparator(x: string, sep: char, y: string)
    requires sep !in x
    ensures Pieces(x + [sep] + y, sep) == [x] + Pieces(y, sep)
    decreases |x|
  {
    var s := x + [sep] + y;
    if |x| == 0 {
      assert s[1..] == y;
    } else {
      assert s[1..] == x[1..] + [sep] + y;
      PiecesAfterFirstSeparator(x[1..], sep, y);
      assert [x[0]] + x[1..] == x;
    }
  }

  /** Splitting the joined parts gives the parts back. */
  lemma {:induction false} PiecesOfJoin(parts: seq<string>, sep: char)
    requires |parts| >= 1
    requires forall i :: 0 <= i < |parts| ==> sep !in parts[i]
    ensures Pieces(Join(parts, sep), sep) == parts
    decreases |parts|
  {
    if |parts| == 1 {
      PiecesWithoutSeparator(parts[0], sep);
    } else {
      PiecesOfJoin(parts[1..], sep);
      PiecesAfterFirstSeparator(parts[0], sep, Join(parts[1..], sep));
      assert [parts[0]] + parts[1..] == parts;
    }
  }

  /**
   * split inverts Join when no part contains the separator and the last part is not empty
   * (a single part may be empty).
   */
  lemma SplitJoin(parts: seq<string>, sep: char)
    requires |parts| >= 1
    requires forall i :: 0 <= i < |parts| ==> sep !in parts[i]
    requires |parts| > 1 ==> parts[|parts| - 1] != ""
    ensures Split(Join(parts, sep), sep) == parts
  {
    PiecesOfJoin(parts, sep);
    if |parts| == 1 {
      PiecesWithoutSeparator(parts[0], sep);
    } else {
      var j := Join(parts, sep);
      assert j == parts[0] + [sep] + Join(parts[1..], sep);
      assert j[|parts[0]|] == sep;
    }
  }

  /** A string with no separator splits into itself alone. */
  lemma SplitWithoutSeparator(s: string, sep: char)
    requires sep !in s
    ensures Split(s, sep) == [s]
  {
  }

  // ---------------------------------------------------------------------------
  // Simple string operations

  /** String.replace(from, to) for one-character arguments. */
  function Replace(s: string, from: char, to: char): (r: string)
    ensures |r| == |s|
    ensures forall i :: 0 <= i < |s| ==> r[i] == if s[i] == from then to else s[i]
  {
    seq(|s|, i requires 0 <= i < |s| => if s[i] == from then to else s[i])
  }

  predicate StartsWith(s: string, prefix: string) {
    |prefix| <= |s| && s[..|prefix|] == prefix
  }

  /** Character.isWhitespace: Unicode space separators other than the no-break spaces, and the ASCII controls \t \n VT \f \r FS GS RS US. */
  predicate IsWhitespace(c: char) {
    || c == ' ' || c == '\t' || c == '\n' || c == '\U{000B}' || c == '\U{000C}' || c == '\r'
    || ('\U{001C}' <= c <= '\U{001F}')
    || c == '\U{1680}'
    || ('\U{2000}' <= c <= '\U{2006}') || ('\U{2008}' <= c <= '\U{200A}')
    || c == '\U{2028}' || c == '\U{2029}' || c == '\U{205F}' || c == '\U{3000}'
  }

  /** String.isBlank: empty or only whitespace. */
  predicate IsBlank(s: string) {
    forall i :: 0 <= i < |s| ==> IsWhitespace(s[i])
  }

  // ---------------------------------------------------------------------------
  // Hash codes, with Java's 32-bit two's-complement wrap-around

  const TWO_32: int := 0x1_0000_0000
  const TWO_31: int := 0x8000_0000

  /** The int value Java keeps of an exact integer result (wrap-around to 32 bits). */
  function Int32(x: int): (r: int)
    ensures -TWO_31 <= r < TWO_31
    ensures (r - x) % TWO_32 == 0
  {
    (x + TWO_31) % TWO_32 - TWO_31
  }

  /**
   * The UTF-16 code units of one character, as a Java String stores it: the character itself
   * below U+10000, otherwise a high surrogate followed by a low surrogate.
   */
  function CodeUnits(c: char): (r: seq<int>)
    ensures c as int < 0x1_0000 ==> r == [c as int]
    ensures c as int >= 0x1_0000 ==> (
      && |r| == 2
      && 0xD800 <= r[0] < 0xDC00 && 0xDC00 <= r[1] < 0xE000
      && (r[0] - 0xD800) * 0x400 + (r[1] - 0xDC00) + 0x1_0000 == c as int)
  {
    if c as int < 0x1_0000 then [c as int]
    else
      var v := c as int - 0x1_0000;
      [0xD800 + v / 0x400, 0xDC00 + v % 0x400]
  }

  /** The UTF-16 code units of a string, in order. */
  function Utf16(s: string): (r: seq<int>)
    ensures |r| >= |s|
    ensures forall i :: 0 <= i < |r| ==> 0 <= r[i] < 0x1_0000
    decreases |s|
  {
    if |s| == 0 then [] else Utf16(s[..|s| - 1]) + CodeUnits(s[|s| - 1])
  }

  /** h = 31 * h + u over code units, in int arithmetic. */
  function UnitsHash(units: seq<int>): (r: int)
    ensures -TWO_31 <= r < TWO_31
    decreases |units|
  {
    if |units| == 0 then 0 else Int32(31 * UnitsHash(units[..|units| - 1]) + units[|units| - 1])
  }

  /** String.hashCode: the polynomial over the string's UTF-16 code units. */
  function StringHash(s: string): (r: int)
    ensures -TWO_31 <= r < TWO_31
  {
    UnitsHash(Utf16(s))
  }

  /** Hashing a string one character further: one step for a BMP character, two for a surrogate pair. */
  lemma StringHashSnoc(s: string, c: char)
    ensures c as int < 0x1_0000 ==> StringHash(s + [c]) == Int32(31 * StringHash(s) + c as int)
    ensures c as int >= 0x1_0000 ==>
      StringHash(s + [c]) == Int32(31 * Int32(31 * StringHash(s) + CodeUnits(c)[0]) + CodeUnits(c)[1])
  {
    assert (s + [c])[..|s|] == s;
    var u := Utf16(s);
    var w := Utf16(s + [c]);
    assert w == u + CodeUnits(c);
    if c as int >= 0x1_0000 {
      var v := u + [CodeUnits(c)[0]];
      assert w[..|w| - 1] == v;
      assert v[..|v| - 1] == u;
      assert UnitsHash(v) == Int32(31 * UnitsHash(u) + CodeUnits(c)[0]);
    } else {
      assert w[..|w| - 1] == u;
    }
  }

  /** A character outside the BMP hashes as its two surrogates: "\U{1F600}" has hash 1772899. */
  lemma StringHashSurrogates()
    ensures StringHash(['\U{1F600}']) == 31 * 0xD83D + 0xDE00 == 1772899
  {
    StringHashSnoc([], '\U{1F600}');
  }

  /** Objects.hash(fields...): r = 31 * r + hash(field), starting at 1, with 0 for null. */
  function ObjectsHash(fields: seq<Option<string>>): (r: int)
    ensures -TWO_31 <= r < TWO_31
    decreases |fields|
  {
    if |fields| == 0 then 1
    else
      var last := fields[|fields| - 1];
      Int32(31 * ObjectsHash(fields[..|fields| - 1]) + (match last case None => 0 case Some(s) => StringHash(s)))
  }

  // ---------------------------------------------------------------------------
  // Map.put

  /** Properties.put for every pair in order: a later pair overwrites an earlier one. */
  function PutAll(m: map<string, string>, pairs: seq<(string, string)>): (r: map<string, string>)
    ensures r.Keys == m.Keys + set i | 0 <= i < |pairs| :: pairs[i].0
    decreases |pairs|
  {
    if |pairs| == 0 then m
    else
      var r := PutAll(m[pairs[0].0 := pairs[0].1], pairs[1..]);
      assert forall i :: 1 <= i < |pairs| ==> pairs[i].0 == pairs[1..][i - 1].0;
      assert forall i :: 0 <= i < |pairs| - 1 ==> pairs[1..][i].0 == pairs[i + 1].0;
      r
  }

  /** A key no pair puts keeps the value it had. */
  lemma {:induction false} PutAllKeeps(m: map<string, string>, pairs: seq<(string, string)>, k: string)
    requires k in m && forall i :: 0 <= i < |pairs| ==> pairs[i].0 != k
    ensures PutAll(m, pairs)[k] == m[k]
    decreases |pairs|
  {
    if |pairs| > 0 {
      assert forall i :: 0 <= i < |pairs| - 1 ==> pairs[1..][i].0 == pairs[i + 1].0;
      PutAllKeeps(m[pairs[0].0 := pairs[0].1], pairs[1..], k);
    }
  }

  /** The last pair that puts a key decides its value. */
  lemma {:induction false} PutAllLastWins(m: map<string, string>, pairs: seq<(string, string)>, i: nat)
    requires i < |pairs| && forall j :: i < j < |pairs| ==> pairs[j].0 != pairs[i].0
    ensures PutAll(m, pairs)[pairs[i].0] == pairs[i].1
    decreases |pairs|
  {
    assert forall j :: 0 <= j < |pairs| - 1 ==> pairs[1..][j].0 == pairs[j + 1].0;
    if i == 0 {
      PutAllKeeps(m[pairs[0].0 := pairs[0].1], pairs[1..], pairs[0].0);
    } else {
      assert pairs[1..][i - 1] == pairs[i];
      PutAllLastWins(m[pairs[0].0 := pairs[0].1], pairs[1..], i - 1);
    }
  }
}
