/**
 * String primitives the chat script borrows from JavaScript: `String.prototype.trim`,
 * the regular-expression notion of a line terminator, and `String.prototype.split`
 * on a single separator character.
 */
module Text {

  /** The characters JavaScript's `trim` removes: WhiteSpace (TAB, VT, FF, SP,
      NBSP, ZWNBSP and the Unicode space separators) and LineTerminator. */
  predicate IsSpace(c: char)
  {
    var n := c as int;
    n == 0x09 || n == 0x0A || n == 0x0B || n == 0x0C || n == 0x0D || n == 0x20 ||
    n == 0xA0 || n == 0x1680 || (0x2000 <= n <= 0x200A) || n == 0x2028 ||
    n == 0x2029 || n == 0x202F || n == 0x205F || n == 0x3000 || n == 0xFEFF
  }

  /** The characters a regular-expression `.` does not match: LF, CR, LS and PS. */
  predicate IsLineTerminator(c: char)
  {
    var n := c as int;
    n == 0x0A || n == 0x0D || n == 0x2028 || n == 0x2029
  }

  /** Neither the first nor the last character of `s` is whitespace. */
  predicate NoEdgeSpace(s: string)
  {
    s == [] || (!IsSpace(s[0]) && !IsSpace(s[|s| - 1]))
  }

  /** The index of the first non-space character at or after `from` (or `|s|`). */
  function SkipSpaces(s: string, from: nat): (n: nat)
    requires from <= |s|
    ensures from <= n <= |s|
    ensures forall i | from <= i < n :: IsSpace(s[i])
    ensures n < |s| ==> !IsSpace(s[n])
    decreases |s| - from
  {
    if from < |s| && IsSpace(s[from]) then SkipSpaces(s, from + 1) else from
  }

  /** The end of `s[lo..hi]` once its trailing whitespace is dropped. */
  function DropTrailingSpaces(s: string, lo: nat, hi: nat): (m: nat)
    requires lo <= hi <= |s|
    ensures lo <= m <= hi
    ensures forall i | m <= i < hi :: IsSpace(s[i])
    ensures m > lo ==> !IsSpace(s[m - 1])
    decreases hi
  {
    if lo < hi && IsSpace(s[hi - 1]) then DropTrailingSpaces(s, lo, hi - 1) else hi
  }

  /** JavaScript's `trim`: the slice of `s` between its leading and its trailing
      whitespace. */
  function Trim(s: string): (r: string)
    ensures |r| <= |s|
    ensures NoEdgeSpace(r)
  {
    var a := SkipSpaces(s, 0);
    s[a..DropTrailingSpaces(s, a, |s|)]
  }

  /** What `trim` keeps: a slice of `s` with only whitespace before and after it.
      Together with `NoEdgeSpace` this pins the result down. */
  lemma TrimBounds(s: string) returns (a: nat, b: nat)
    ensures a <= b <= |s| && Trim(s) == s[a..b]
    ensures forall i | 0 <= i < a :: IsSpace(s[i])
    ensures forall i | b <= i < |s| :: IsSpace(s[i])
  {
    a := SkipSpaces(s, 0);
    b := DropTrailingSpaces(s, a, |s|);
  }

  /** `trim` leaves a string alone exactly when it has no whitespace at either end. */
  lemma TrimFixedPoint(s: string)
    ensures Trim(s) == s <==> NoEdgeSpace(s)
  {
    if NoEdgeSpace(s) && s != [] {
      assert SkipSpaces(s, 0) == 0;
      assert DropTrailingSpaces(s, 0, |s|) == |s|;
    }
  }

  /** Trimming twice is trimming once. */
  lemma TrimIdempotent(s: string)
    ensures Trim(Trim(s)) == Trim(s)
  {
    TrimFixedPoint(Trim(s));
  }

  /** `trim` yields the empty string exactly when `s` is all whitespace. */
  lemma TrimEmptyIff(s: string)
    ensures Trim(s) == [] <==> forall i | 0 <= i < |s| :: IsSpace(s[i])
  {
  }

  /** Joins fields with the separator between neighbours, the inverse of `Split`. */
  function Join(fields: seq<string>, sep: char): string
    requires |fields| >= 1
  {
    if |fields| == 1 then fields[0] else fields[0] + [sep] + Join(fields[1..], sep)
  }

  /** JavaScript's `s.split(sep)` for a one-character separator: the maximal
      separator-free runs of `s`, in order; always at least one (possibly empty) field. */
  function Split(s: string, sep: char): (r: seq<string>)
    ensures |r| >= 1
    ensures forall i | 0 <= i < |r| :: sep !in r[i]
  {
    if s == [] then [[]]
    else
      var rest := Split(s[1..], sep);
      if s[0] == sep then [[]] + rest
      else [[s[0]] + rest[0]] + rest[1..]
  }

  /** Joining the fields of a split gives the string back. */
  lemma {:induction false} JoinSplit(s: string, sep: char)
    ensures Join(Split(s, sep), sep) == s
  {
    if s != [] {
      var rest := Split(s[1..], sep);
      JoinSplit(s[1..], sep);
      if s[0] == sep {
        assert Join([[]] + rest, sep) == [] + [sep] + Join(rest, sep);
        assert [sep] + s[1..] == s;
      } else {
        JoinCons(s[0], rest, sep);
        assert [s[0]] + s[1..] == s;
      }
    }
  }

  /** Putting a character in front of the first field puts it in front of the join. */
  lemma JoinCons(c: char, fields: seq<string>, sep: char)
    requires |fields| >= 1
    ensures Join([[c] + fields[0]] + fields[1..], sep) == [c] + Join(fields, sep)
  {
    var g := [[c] + fields[0]] + fields[1..];
    assert g[0] == [c] + fields[0] && g[1..] == fields[1..];
    if |fields| > 1 {
      assert [c] + fields[0] + [sep] + Join(fields[1..], sep)
          == [c] + (fields[0] + [sep] + Join(fields[1..], sep));
    }
  }

  /** Splitting a join of separator-free fields gives the fields back. */
  lemma {:induction false} SplitJoin(fields: seq<string>, sep: char)
    requires |fields| >= 1
    requires forall i | 0 <= i < |fields| :: sep !in fields[i]
    ensures Split(Join(fields, sep), sep) == fields
  {
    if |fields| == 1 {
      SplitWhole(fields[0], sep);
    } else {
      SplitJoin(fields[1..], sep);
      SplitFirst(fields[0], Join(fields[1..], sep), sep);
    }
  }

  /** A separator-free string is a single field. */
  lemma {:induction false} SplitWhole(f: string, sep: char)
    requires sep !in f
    ensures Split(f, sep) == [f]
  {
    if f != [] {
      SplitWhole(f[1..], sep);
      assert [f[0]] + f[1..] == f;
    }
  }

  /** A separator-free field followed by the separator splits off as the first field. */
  lemma {:induction false} SplitFirst(f: string, t: string, sep: char)
    requires sep !in f
    ensures Split(f + [sep] + t, sep) == [f] + Split(t, sep)
  {
    var s := f + [sep] + t;
    if f == [] {
      assert s[1..] == t;
    } else {
      assert s[0] == f[0] && s[1..] == f[1..] + [sep] + t;
      var rest := Split(s[1..], sep);
      SplitFirst(f[1..], t, sep);
      assert rest == [f[1..]] + Split(t, sep);
      assert Split(s, sep) == [[f[0]] + rest[0]] + rest[1..];
      assert [f[0]] + f[1..] == f;
    }
  }
}
