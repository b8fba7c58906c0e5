/**
 * The string operations the pages rely on, as the ECMAScript built-ins
 * behave on plain (non-regular-expression) arguments:
 * `String.prototype.includes`, `replace` with a one-character pattern,
 * and `split` on a one-character separator.
 */
module JsString {
  import opened JsArray

  /** `sub` occurs in `s` starting at position `i`. */
  predicate OccursAt(s: string, sub: string, i: int) {
    0 <= i && i + |sub| <= |s| && s[i..i + |sub|] == sub
  }

  /** `s.includes(sub)`. */
  function Includes(s: string, sub: string): (r: bool)
    ensures r <==> exists i :: OccursAt(s, sub, i)
    decreases |s|
  {
    if |sub| > |s| then false
    else if s[..|sub|] == sub then (assert OccursAt(s, sub, 0); true)
    else
      var rest := Includes(s[1..], sub);
      assert forall i :: OccursAt(s[1..], sub, i) <==> OccursAt(s, sub, i + 1) by {
        forall i ensures OccursAt(s[1..], sub, i) <==> OccursAt(s, sub, i + 1) {
          if 0 <= i && i + |sub| <= |s| - 1 {
            assert s[1..][i..i + |sub|] == s[i + 1..i + 1 + |sub|];
          }
        }
      }
      assert !rest ==> forall i :: !OccursAt(s, sub, i) by {
        if !rest {
          forall i ensures !OccursAt(s, sub, i) {
            if i >= 1 { assert !OccursAt(s[1..], sub, i - 1); }
          }
        }
      }
      rest
  }

  /** Every character of an occurring substring is a character of the string. */
  lemma OccurrenceChars(s: string, sub: string, i: int, k: nat)
    requires OccursAt(s, sub, i) && k < |sub|
    ensures sub[k] in s
  {
    assert s[i..i + |sub|][k] == s[i + k];
  }

  /** `s.replace(c, "")` for a one-character pattern: only the first occurrence is removed. */
  function RemoveFirst(s: string, c: char): (r: string)
    ensures c !in s ==> r == s
    ensures c in s ==> r == s[..FirstIndex(s, c)] + s[FirstIndex(s, c) + 1..]
  {
    if s == [] then []
    else if s[0] == c then s[1..]
    else
      var rest := RemoveFirst(s[1..], c);
      assert c in s ==> c in s[1..];
      if c in s then
        var k := FirstIndex(s[1..], c);
        assert FirstIndex(s, c) == k + 1;
        assert s[..k + 1] == [s[0]] + s[1..][..k];
        assert s[k + 2..] == s[1..][k + 1..];
        [s[0]] + rest
      else
        [s[0]] + rest
  }

  /** `s.split(sep)`: the pieces between separators, at least one, none containing `sep`. */
  function Split(s: string, sep: char): (parts: seq<string>)
    ensures |parts| >= 1
    ensures forall i :: 0 <= i < |parts| ==> sep !in parts[i]
  {
    if s == [] then [[]]
    else
      var rest := Split(s[1..], sep);
      if s[0] == sep then [[]] + rest
      else [[s[0]] + rest[0]] + rest[1..]
  }

  /** `parts.join(sep)`. */
  function Join(parts: seq<string>, sep: char): string
    requires |parts| >= 1
  {
    if |parts| == 1 then parts[0] else parts[0] + [sep] + Join(parts[1..], sep)
  }

  /** `parts.pop()` on a non-empty array: its last element. */
  function Last(parts: seq<string>): string
    requires |parts| >= 1
  {
    parts[|parts| - 1]
  }

  /** Joining the pieces of a split gives back the original string. */
  lemma {:induction false} JoinSplit(s: string, sep: char)
    ensures Join(Split(s, sep), sep) == s
  {
    if s != [] {
      JoinSplit(s[1..], sep);
      var rest := Split(s[1..], sep);
      if s[0] == sep {
        assert ([[]] + rest)[1..] == rest;
        assert s == [sep] + s[1..];
      } else if |rest| == 1 {
        assert s == [s[0]] + s[1..];
      } else {
        var parts := [[s[0]] + rest[0]] + rest[1..];
        assert parts[1..] == rest[1..];
        assert Join(rest, sep) == rest[0] + [sep] + Join(rest[1..], sep);
        assert s == [s[0]] + s[1..];
      }
    }
  }

  /** A piece-wise split distributes over a separator: the pieces of both sides, side by side. */
  lemma {:induction false} SplitConcat(a: string, b: string, sep: char)
    ensures Split(a + [sep] + b, sep) == Split(a, sep) + Split(b, sep)
  {
    var s := a + [sep] + b;
    if a == [] {
      assert s == [sep] + b;
      assert s[1..] == b;
    } else {
      SplitConcat(a[1..], b, sep);
      assert s[1..] == a[1..] + [sep] + b;
      assert s[0] == a[0];
      var rest, left := Split(s[1..], sep), Split(a[1..], sep);
      assert rest == left + Split(b, sep);
      if a[0] != sep {
        assert rest[0] == left[0];
        assert rest[1..] == left[1..] + Split(b, sep);
        assert Split(s, sep) == [[a[0]] + rest[0]] + rest[1..];
        assert Split(a, sep) == [[a[0]] + left[0]] + left[1..];
      } else {
        assert Split(s, sep) == [[]] + rest;
        assert Split(a, sep) == [[]] + left;
      }
    }
  }

  /** A string without the separator splits into itself alone. */
  lemma {:induction false} SplitNoSeparator(s: string, sep: char)
    requires sep !in s
    ensures Split(s, sep) == [s]
  {
    if s != [] {
      SplitNoSeparator(s[1..], sep);
      assert [s[0]] + s[1..] == s;
    }
  }

  /** Splitting a join of separator-free pieces gives back the pieces. */
  lemma {:induction false} SplitJoin(parts: seq<string>, sep: char)
    requires |parts| >= 1
    requires forall i :: 0 <= i < |parts| ==> sep !in parts[i]
    ensures Split(Join(parts, sep), sep) == parts
  {
    SplitNoSeparator(parts[0], sep);
    if |parts| > 1 {
      SplitJoin(parts[1..], sep);
      SplitConcat(parts[0], Join(parts[1..], sep), sep);
      assert [parts[0]] + parts[1..] == parts;
    }
  }
}
