/** The few Python `str` operations the core relies on, over `seq<char>`. */
module Text {

  /**
   * Python's `str.isspace()` for one character: the characters that
   * `str.strip()` and `str.rstrip()` without arguments remove.
   */
  predicate IsSpace(c: char)
  {
    var n := c as int;
    (9 <= n <= 13) || (28 <= n <= 32) || n == 0x85 || n == 0xA0 || n == 0x1680
    || (0x2000 <= n <= 0x200A) || n == 0x2028 || n == 0x2029 || n == 0x202F
    || n == 0x205F || n == 0x3000
  }

  predicate AllSpace(s: string)
  {
    forall i :: 0 <= i < |s| ==> IsSpace(s[i])
  }

  predicate EndsInSpace(s: string)
  {
    |s| > 0 && IsSpace(s[|s| - 1])
  }

  predicate BeginsWithSpace(s: string)
  {
    |s| > 0 && IsSpace(s[0])
  }

  /** `s.startswith(p)` */
  predicate StartsWith(s: string, p: string)
  {
    |p| <= |s| && s[..|p|] == p
  }

  /** `s.endswith(p)` */
  predicate EndsWith(s: string, p: string)
  {
    |p| <= |s| && s[|s| - |p|..] == p
  }

  /** `s.rstrip()` */
  function RStrip(s: string): string
    decreases |s|
  {
    if EndsInSpace(s) then RStrip(s[..|s| - 1]) else s
  }

  /**
   * What `rstrip()` keeps is the longest prefix of `s` that does not end in
   * whitespace: everything cut off is whitespace, and leading whitespace stays.
   */
  lemma {:induction false} RStripSpec(s: string)
    ensures RStrip(s) <= s
    ensures AllSpace(s[|RStrip(s)|..])
    ensures !EndsInSpace(RStrip(s))
    decreases |s|
  {
    if EndsInSpace(s) {
      var t := s[..|s| - 1];
      RStripSpec(t);
      var r := RStrip(t);
      assert s[|r|..] == t[|r|..] + [s[|s| - 1]];
    }
  }

  /** `s.lstrip()` */
  function LStrip(s: string): string
    decreases |s|
  {
    if BeginsWithSpace(s) then LStrip(s[1..]) else s
  }

  /** What `lstrip()` keeps is the longest suffix of `s` that does not begin with whitespace. */
  lemma {:induction false} LStripSpec(s: string)
    ensures |LStrip(s)| <= |s|
    ensures LStrip(s) == s[|s| - |LStrip(s)|..]
    ensures AllSpace(s[..|s| - |LStrip(s)|])
    ensures !BeginsWithSpace(LStrip(s))
  {
    LStripSuffix(s);
    LStripCut(s);
  }

  lemma {:induction false} LStripSuffix(s: string)
    ensures |LStrip(s)| <= |s| && LStrip(s) == s[|s| - |LStrip(s)|..]
    ensures !BeginsWithSpace(LStrip(s))
    decreases |s|
  {
    if BeginsWithSpace(s) {
      var t := s[1..];
      LStripSuffix(t);
      assert s[|s| - |LStrip(t)|..] == t[|t| - |LStrip(t)|..];
    }
  }

  lemma {:induction false} LStripCut(s: string)
    ensures |LStrip(s)| <= |s| && AllSpace(s[..|s| - |LStrip(s)|])
    decreases |s|
  {
    if BeginsWithSpace(s) {
      var t := s[1..];
      LStripCut(t);
      var n := |s| - |LStrip(t)|;
      assert s[..n] == [s[0]] + t[..n - 1];
      AllSpaceCons(s[0], t[..n - 1]);
    }
  }

  lemma AllSpaceCons(c: char, u: string)
    requires IsSpace(c) && AllSpace(u)
    ensures AllSpace([c] + u)
  {
    forall i | 0 < i <= |u|
      ensures IsSpace(([c] + u)[i])
    {
      assert ([c] + u)[i] == u[i - 1];
    }
  }

  /** `s.strip()`: `s` with whitespace removed at both ends. */
  function Strip(s: string): string
  {
    LStrip(RStrip(s))
  }

  /**
   * What `strip()` keeps is the slice `s[i..i + |r|]` of `s`, neither
   * beginning nor ending in whitespace, and everything around it is whitespace.
   */
  lemma StripSpec(s: string)
    ensures var r := Strip(s);
            && !BeginsWithSpace(r) && !EndsInSpace(r)
            && exists i :: 0 <= i <= |s| - |r| && s[i..i + |r|] == r
                           && AllSpace(s[..i]) && AllSpace(s[i + |r|..])
  {
    var t := RStrip(s);
    var r := LStrip(t);
    RStripSpec(s);
    LStripSpec(t);
    StripSlice(s, t, r);
    var i := |t| - |r|;
    assert 0 <= i <= |s| - |r| && s[i..i + |r|] == r && AllSpace(s[..i]) && AllSpace(s[i + |r|..]);
  }

  /** `strip()` introduces no character that was not there. */
  lemma StripWithin(s: string, c: char)
    requires c in Strip(s)
    ensures c in s
  {
    StripSpec(s);
    var r := Strip(s);
    var i :| 0 <= i <= |s| - |r| && s[i..i + |r|] == r && AllSpace(s[..i]) && AllSpace(s[i + |r|..]);
    var k :| 0 <= k < |r| && r[k] == c;
    assert s[i + k] == c;
  }

  /** Cutting whitespace off the front of an rstripped string leaves a slice of the original. */
  lemma StripSlice(s: string, t: string, r: string)
    requires t <= s && AllSpace(s[|t|..]) && !EndsInSpace(t)
    requires |r| <= |t| && r == t[|t| - |r|..] && AllSpace(t[..|t| - |r|])
    ensures !EndsInSpace(r)
    ensures var i := |t| - |r|;
            0 <= i <= |s| - |r| && s[i..i + |r|] == r && AllSpace(s[..i]) && AllSpace(s[i + |r|..])
  {
    var i := |t| - |r|;
    if r != [] {
      assert r[|r| - 1] == t[|t| - 1];
    }
    assert s[i..i + |r|] == r;
    assert s[..i] == t[..i];
  }

  /** The index of the first `c` in `s`, or `|s|` when there is none. */
  function FirstIndex(s: string, c: char): (k: nat)
    ensures k <= |s|
    ensures c !in s[..k]
    ensures k < |s| ==> s[k] == c
    decreases |s|
  {
    if |s| == 0 then 0
    else if s[0] == c then 0
    else
      var k := FirstIndex(s[1..], c);
      assert s[..k + 1] == [s[0]] + s[1..][..k];
      1 + k
  }

  /** Any occurrence of `c` that has none before it is the first one. */
  lemma {:induction false} FirstIndexAt(s: string, c: char, k: nat)
    requires k < |s| && s[k] == c && c !in s[..k]
    ensures FirstIndex(s, c) == k
  {
  }

  /** The fields separated by `c`, glued back together. */
  function Join(parts: seq<string>, c: char): string
    requires |parts| > 0
  {
    if |parts| == 1 then parts[0] else parts[0] + [c] + Join(parts[1..], c)
  }

  /** `s.split(c)` with an explicit one-character separator. */
  function Split(s: string, c: char): (parts: seq<string>)
    ensures |parts| > 0
    decreases |s|
  {
    var k := FirstIndex(s, c);
    if k == |s| then [s] else [s[..k]] + Split(s[k + 1..], c)
  }

  /**
   * No field holds the separator, joining the fields with it gives `s`
   * back, and the first field is everything before the first separator.
   */
  lemma {:induction false} SplitSpec(s: string, c: char)
    ensures forall i :: 0 <= i < |Split(s, c)| ==> c !in Split(s, c)[i]
    ensures Join(Split(s, c), c) == s
    ensures Split(s, c)[0] == s[..FirstIndex(s, c)]
    decreases |s|
  {
    var k := FirstIndex(s, c);
    if k == |s| {
      assert Split(s, c) == [s];
      assert s[..k] == s;
    } else {
      var head, rest := s[..k], s[k + 1..];
      var tail := Split(rest, c);
      var parts := [head] + tail;
      assert Split(s, c) == parts;
      SplitSpec(rest, c);
      assert parts[1..] == tail;
      assert Join(parts, c) == head + [c] + Join(tail, c);
      assert s == head + [c] + rest;
      forall i | 0 <= i < |parts|
        ensures c !in parts[i]
      {
        if i > 0 {
          assert parts[i] == tail[i - 1];
        }
      }
    }
  }

  /** Splitting at a first occurrence: the field before it, then the fields of what follows. */
  lemma SplitAt(s: string, c: char, k: nat)
    requires k < |s| && s[k] == c && c !in s[..k]
    ensures Split(s, c) == [s[..k]] + Split(s[k + 1..], c)
  {
    FirstIndexAt(s, c, k);
  }

  /** A field followed by the separator splits off first. */
  lemma SplitCons(field: string, c: char, rest: string)
    requires c !in field
    ensures Split(field + [c] + rest, c) == [field] + Split(rest, c)
  {
    var s := field + [c] + rest;
    assert s[..|field|] == field && s[|field| + 1..] == rest;
    SplitAt(s, c, |field|);
  }

  /** Two fields, each followed by the separator, split off first. */
  lemma SplitCons2(first: string, second: string, c: char, rest: string)
    requires c !in first && c !in second
    ensures Split(first + [c] + (second + [c] + rest), c) == [first, second] + Split(rest, c)
  {
    SplitCons(second, c, rest);
    SplitCons(first, c, second + [c] + rest);
  }
}
