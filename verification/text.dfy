/**
 * String helpers used by the product normaliser: ASCII case mapping,
 * the last `:`-separated segment of a tag, and substring search.
 * Strings are `seq<char>`; only the ASCII letters change case.
 */
module Text {

  predicate IsUpperAscii(c: char) {
    'A' <= c <= 'Z'
  }

  predicate IsLowerAscii(c: char) {
    'a' <= c <= 'z'
  }

  function LowerChar(c: char): (d: char)
    ensures !IsUpperAscii(d)
    ensures IsUpperAscii(c) ==> d as int == c as int + 32
    ensures !IsUpperAscii(c) ==> d == c
  {
    if IsUpperAscii(c) then (c as int + 32) as char else c
  }

  function UpperChar(c: char): (d: char)
    ensures !IsLowerAscii(d)
    ensures IsLowerAscii(c) ==> d as int == c as int - 32
    ensures !IsLowerAscii(c) ==> d == c
  {
    if IsLowerAscii(c) then (c as int - 32) as char else c
  }

  /** No ASCII upper-case letter occurs in `s`. */
  predicate IsLowerCase(s: string) {
    forall i :: 0 <= i < |s| ==> !IsUpperAscii(s[i])
  }

  /** `toLowerCase`, restricted to ASCII: each character is mapped on its own. */
  function Lower(s: string): (r: string)
    ensures |r| == |s|
    ensures forall i :: 0 <= i < |s| ==> r[i] == LowerChar(s[i])
    ensures IsLowerCase(r)
  {
    if s == [] then [] else [LowerChar(s[0])] + Lower(s[1..])
  }

  /** `toUpperCase`, restricted to ASCII. */
  function Upper(s: string): (r: string)
    ensures |r| == |s|
    ensures forall i :: 0 <= i < |s| ==> r[i] == UpperChar(s[i])
  {
    if s == [] then [] else [UpperChar(s[0])] + Upper(s[1..])
  }

  /** Lowering a string that has no upper-case letter changes nothing. */
  lemma LowerOfLowerCase(s: string)
    requires IsLowerCase(s)
    ensures Lower(s) == s
  {
  }

  /** Lowering distributes over concatenation. */
  lemma LowerAppend(a: string, b: string)
    ensures Lower(a + b) == Lower(a) + Lower(b)
  {
    forall i | 0 <= i < |a + b| ensures Lower(a + b)[i] == (Lower(a) + Lower(b))[i] {
      if i < |a| {
        assert (a + b)[i] == a[i];
      } else {
        assert (a + b)[i] == b[i - |a|];
      }
    }
  }

  /** `s.split(":").pop()`: what follows the last colon of `s`, or all of `s` when it has none. */
  function LastSegment(s: string): string {
    if s == [] then []
    else if s[|s| - 1] == ':' then []
    else LastSegment(s[..|s| - 1]) + [s[|s| - 1]]
  }

  /**
   * The last segment is the longest suffix of `s` without a colon: it has
   * no colon, it is a suffix, and it is either all of `s` or is preceded by
   * a colon. These three facts determine it uniquely.
   */
  lemma {:induction false} LastSegmentSpec(s: string)
    ensures ':' !in LastSegment(s)
    ensures |LastSegment(s)| <= |s| && LastSegment(s) == s[|s| - |LastSegment(s)|..]
    ensures |LastSegment(s)| < |s| ==> s[|s| - |LastSegment(s)| - 1] == ':'
  {
    if s != [] && s[|s| - 1] != ':' {
      var init, c := s[..|s| - 1], s[|s| - 1];
      LastSegmentSpec(init);
      var r := LastSegment(init);
      assert s == init + [c];
      assert LastSegment(s) == r + [c];
      assert ':' !in r + [c];
      assert s[|s| - |r| - 1..] == r + [c] by {
        forall k | 0 <= k < |r| + 1 ensures s[|s| - |r| - 1 + k] == (r + [c])[k] {
          if k < |r| {
            assert r[k] == init[|init| - |r| + k];
          }
        }
      }
      if |r| < |init| {
        assert s[|s| - |r| - 2] == init[|init| - |r| - 1];
      }
    }
  }

  /** The segment after the last colon of `prefix + ":" + seg` is `seg`. */
  lemma {:induction false} LastSegmentAfterColon(prefix: string, seg: string)
    requires ':' !in seg
    ensures LastSegment(prefix + ":" + seg) == seg
  {
    var s := prefix + ":" + seg;
    LastSegmentSpec(s);
    assert s[|s| - |seg| - 1] == ':';
  }

  /** `needle` occurs in `hay` starting at index `i`. */
  predicate OccursAt(hay: string, needle: string, i: int) {
    0 <= i && i + |needle| <= |hay| && hay[i..i + |needle|] == needle
  }

  /** `hay.includes(needle)`: some position of `hay` starts an occurrence of `needle`. */
  function Includes(hay: string, needle: string): (b: bool)
    ensures b <==> exists i :: OccursAt(hay, needle, i)
    decreases |hay|
  {
    if needle <= hay then
      assert OccursAt(hay, needle, 0);
      true
    else if hay == [] then
      false
    else
      var b := Includes(hay[1..], needle);
      if b then
        var i :| OccursAt(hay[1..], needle, i);
        assert OccursAt(hay, needle, i + 1);
        true
      else
        assert forall i :: OccursAt(hay, needle, i) ==> i > 0 && OccursAt(hay[1..], needle, i - 1);
        false
  }
}
