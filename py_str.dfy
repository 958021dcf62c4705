/**
 * The few Python string and list built-ins the extension relies on, stated on
 * `string` (a `seq<char>`): `str.rfind`, slicing with a possibly negative bound,
 * `str.split(sep)`, `filter(None, ...)` on strings and `str.strip()`.
 */
module PyStr {

  /** `c.isspace()` in Python 3: the characters `str.strip()` removes when given no argument. */
  predicate IsSpace(c: char)
  {
    || ('\t' <= c <= '\r')            // tab, line feed, vertical tab, form feed, carriage return
    || ('\U{1c}' <= c <= ' ')         // file, group, record and unit separators, space
    || c == '\U{85}' || c == '\U{a0}' || c == '\U{1680}'
    || ('\U{2000}' <= c <= '\U{200a}')
    || c == '\U{2028}' || c == '\U{2029}' || c == '\U{202f}' || c == '\U{205f}' || c == '\U{3000}'
  }

  /** `s.rfind(c)`: the index of the last occurrence of `c` in `s`, or -1 when there is none. */
  function RFind(s: string, c: char): (r: int)
    ensures -1 <= r < |s|
    ensures r >= 0 ==> s[r] == c
    ensures forall k :: r < k < |s| ==> s[k] != c
  {
    if |s| == 0 then -1
    else if s[|s| - 1] == c then |s| - 1
    else RFind(s[..|s| - 1], c)
  }

  /** `c in s` is exactly `s.rfind(c) != -1`. */
  lemma RFindFound(s: string, c: char)
    ensures c in s <==> RFind(s, c) >= 0
  {
    if c in s {
      var k :| 0 <= k < |s| && s[k] == c;
      assert RFind(s, c) >= k;
    }
  }

  /** The position a Python slice bound `i` denotes in `s`: a negative bound counts from the end, and a bound out of range is clamped. */
  function SliceIndex(s: string, i: int): (k: nat)
    ensures k <= |s|
  {
    if i < 0 then (if |s| + i < 0 then 0 else |s| + i)
    else if i > |s| then |s|
    else i
  }

  /** `s[i:]` in Python. */
  function SliceFrom(s: string, i: int): string
  {
    s[SliceIndex(s, i)..]
  }

  /** `s[:i]` in Python. */
  function SliceTo(s: string, i: int): string
  {
    s[..SliceIndex(s, i)]
  }

  /** `sep.join(parts)` for a one-character separator. */
  function Join(parts: seq<string>, sep: char): string
  {
    if |parts| == 0 then ""
    else if |parts| == 1 then parts[0]
    else parts[0] + [sep] + Join(parts[1..], sep)
  }

  /** `s.split(sep)` for a one-character separator: the pieces between separators, at least one, none containing `sep`. */
  function Split(s: string, sep: char): (parts: seq<string>)
    ensures |parts| >= 1
    ensures forall i :: 0 <= i < |parts| ==> sep !in parts[i]
  {
    if |s| == 0 then [""]
    else
      var rest := Split(s[1..], sep);
      if s[0] == sep then [""] + rest
      else [[s[0]] + rest[0]] + rest[1..]
  }

  /** Splitting and joining again with the same separator gives back the string. */
  lemma {:induction false} JoinSplit(s: string, sep: char)
    ensures Join(Split(s, sep), sep) == s
  {
    if |s| > 0 {
      var rest := Split(s[1..], sep);
      JoinSplit(s[1..], sep);
      if s[0] == sep {
        assert Split(s, sep) == [""] + rest;
        assert ([""] + rest)[1..] == rest;
      } else {
        var parts := Split(s, sep);
        assert parts == [[s[0]] + rest[0]] + rest[1..];
        if |rest| > 1 {
          assert parts[1..] == rest[1..];
          assert Join(rest, sep) == rest[0] + [sep] + Join(rest[1..], sep);
        }
      }
    }
  }

  /** Joining pieces that do not contain the separator and splitting again gives back the pieces. */
  lemma {:induction false} SplitJoin(parts: seq<string>, sep: char)
    requires |parts| >= 1
    requires forall i :: 0 <= i < |parts| ==> sep !in parts[i]
    ensures Split(Join(parts, sep), sep) == parts
    decreases |Join(parts, sep)|
  {
    var s := Join(parts, sep);
    if parts[0] == "" {
      if |parts| > 1 {
        var tail := parts[1..];
        assert s == [sep] + Join(tail, sep);
        assert s[1..] == Join(tail, sep);
        SplitJoin(tail, sep);
        assert parts == [""] + tail;
      }
    } else {
      var c := parts[0][0];
      var shorter := [parts[0][1..]] + parts[1..];
      assert shorter[1..] == parts[1..];
      assert c != sep by { assert parts[0][0] in parts[0]; }
      assert s == [c] + Join(shorter, sep) by {
        if |parts| > 1 {
          assert parts[0] == [c] + parts[0][1..];
        }
      }
      assert s[1..] == Join(shorter, sep);
      forall i | 0 <= i < |shorter| ensures sep !in shorter[i] {
        if i == 0 {
          assert forall x :: x in parts[0][1..] ==> x in parts[0];
        } else {
          assert shorter[i] == parts[i];
        }
      }
      SplitJoin(shorter, sep);
      assert [c] + shorter[0] == parts[0];
      assert parts == [parts[0]] + parts[1..];
      assert parts == [[c] + shorter[0]] + shorter[1..];
    }
  }

  /** `list(filter(None, xs))` on strings: the non-empty ones, in their original order. */
  function NonEmpty(xs: seq<string>): (r: seq<string>)
    ensures |r| <= |xs|
    ensures forall i :: 0 <= i < |r| ==> r[i] != ""
    ensures forall x :: x in r <==> x in xs && x != ""
  {
    if xs == [] then []
    else (if xs[0] == "" then [] else [xs[0]]) + NonEmpty(xs[1..])
  }

  /** Filtering distributes over concatenation, so it keeps the order of what it keeps. */
  lemma {:induction false} NonEmptyAppend(a: seq<string>, b: seq<string>)
    ensures NonEmpty(a + b) == NonEmpty(a) + NonEmpty(b)
  {
    if a != [] {
      assert (a + b)[1..] == a[1..] + b;
      NonEmptyAppend(a[1..], b);
    } else {
      assert a + b == b;
    }
  }

  /** Filtering leaves a sequence of non-empty strings as it is. */
  lemma {:induction false} NonEmptyKeepsNonEmpty(xs: seq<string>)
    requires forall i :: 0 <= i < |xs| ==> xs[i] != ""
    ensures NonEmpty(xs) == xs
  {
    if xs != [] {
      NonEmptyKeepsNonEmpty(xs[1..]);
    }
  }

  /** `s.lstrip()`: `s` without its leading whitespace. */
  function StripStart(s: string): (r: string)
    ensures |r| <= |s| && r == s[|s| - |r|..]
    ensures forall k :: 0 <= k < |s| - |r| ==> IsSpace(s[k])
    ensures r == [] || !IsSpace(r[0])
  {
    if |s| > 0 && IsSpace(s[0]) then StripStart(s[1..]) else s
  }

  /** `s.rstrip()`: `s` without its trailing whitespace. */
  function StripEnd(s: string): (r: string)
    ensures |r| <= |s| && r == s[..|r|]
    ensures forall k :: |r| <= k < |s| ==> IsSpace(s[k])
    ensures r == [] || !IsSpace(r[|r| - 1])
  {
    if |s| > 0 && IsSpace(s[|s| - 1]) then StripEnd(s[..|s| - 1]) else s
  }

  /** `r` is what is left of `s` once a whitespace prefix of length `i` and a whitespace suffix are removed, and it neither starts nor ends with whitespace. */
  ghost predicate IsStripOf(r: string, s: string, i: int)
  {
    && 0 <= i && i + |r| <= |s|
    && r == s[i..i + |r|]
    && (forall k :: 0 <= k < i ==> IsSpace(s[k]))
    && (forall k :: i + |r| <= k < |s| ==> IsSpace(s[k]))
    && (r == [] || (!IsSpace(r[0]) && !IsSpace(r[|r| - 1])))
  }

  /** `s.strip()`: `s` without leading or trailing whitespace. */
  function Strip(s: string): (r: string)
    ensures exists i :: IsStripOf(r, s, i)
  {
    var t := StripStart(s);
    var r := StripEnd(t);
    assert IsStripOf(r, s, |s| - |t|) by {
      forall k | |s| - |t| + |r| <= k < |s| ensures IsSpace(s[k]) {
        assert s[k] == t[k - (|s| - |t|)];
      }
    }
    r
  }

  /** What `IsStripOf` describes is unique: it is `Strip(s)`. */
  lemma StripUnique(r: string, s: string, i: int)
    requires IsStripOf(r, s, i)
    ensures r == Strip(s)
  {
    var i' :| IsStripOf(Strip(s), s, i');
    var r' := Strip(s);
    if r == [] || r' == [] {
      assert r == [] ==> forall k :: 0 <= k < |s| ==> IsSpace(s[k]);
      assert r' == [] ==> forall k :: 0 <= k < |s| ==> IsSpace(s[k]);
    } else {
      assert r[0] == s[i] && r'[0] == s[i'];
      assert i == i';
      assert r[|r| - 1] == s[i + |r| - 1] && r'[|r'| - 1] == s[i' + |r'| - 1];
      assert |r| == |r'|;
    }
  }
}
