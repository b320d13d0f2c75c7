/**
 * The string and path helpers of Go's standard library that the program
 * relies on (`strings.HasPrefix`, `strings.TrimPrefix`, `strings.TrimSpace`,
 * `strings.Contains`, `filepath.Join`, `filepath.Base`, and the `%02x` verb
 * of `fmt.Sprintf`), stated over `seq<char>`.
 */
module Strings {

  predicate HasPrefix(s: string, prefix: string) {
    |prefix| <= |s| && s[..|prefix|] == prefix
  }

  predicate EndsWith(s: string, suffix: string) {
    |suffix| <= |s| && s[|s| - |suffix|..] == suffix
  }

  /** `strings.TrimPrefix`: removes one leading occurrence of `prefix`. */
  function TrimPrefix(s: string, prefix: string): (r: string)
    ensures HasPrefix(s, prefix) ==> prefix + r == s
    ensures !HasPrefix(s, prefix) ==> r == s
  {
    if HasPrefix(s, prefix) then
      assert s == s[..|prefix|] + s[|prefix|..];
      s[|prefix|..]
    else s
  }

  /** Two suffixes of one string: the shorter is a suffix of the longer. */
  lemma SuffixesNest(s: string, a: string, b: string)
    ensures EndsWith(s, a) && EndsWith(s, b) && |a| <= |b| ==> EndsWith(b, a)
  {
    if EndsWith(s, a) && EndsWith(s, b) && |a| <= |b| {
      var sb := s[|s| - |b|..];
      assert sb[|sb| - |a|..] == s[|s| - |a|..];
    }
  }

  /** A non-empty suffix starts where the string has the suffix's first character. */
  lemma SuffixHead(s: string, e: string)
    ensures EndsWith(s, e) && e != [] ==> s[|s| - |e|] == e[0]
  {
  }

  // ---------------------------------------------------------------------
  // strings.TrimSpace

  /** Go's `unicode.IsSpace`: the Unicode White_Space property. */
  predicate IsSpace(c: char) {
    var n := c as int;
    (0x09 <= n <= 0x0d) || n == 0x20 || n == 0x85 || n == 0xa0 || n == 0x1680
    || (0x2000 <= n <= 0x200a) || n == 0x2028 || n == 0x2029 || n == 0x202f
    || n == 0x205f || n == 0x3000
  }

  predicate AllSpace(s: string) {
    forall k :: 0 <= k < |s| ==> IsSpace(s[k])
  }

  function TrimLeft(s: string): string {
    if s != [] && IsSpace(s[0]) then TrimLeft(s[1..]) else s
  }

  function TrimRight(s: string): string {
    if s != [] && IsSpace(s[|s| - 1]) then TrimRight(s[..|s| - 1]) else s
  }

  /** `TrimLeft` drops a prefix of white space and stops at the first other character. */
  lemma {:induction false} TrimLeftDrops(s: string)
    ensures var r := TrimLeft(s);
      && |r| <= |s| && r == s[|s| - |r|..]
      && AllSpace(s[..|s| - |r|])
      && (r != [] ==> !IsSpace(r[0]))
  {
    if s != [] && IsSpace(s[0]) {
      TrimLeftDrops(s[1..]);
      var r := TrimLeft(s[1..]);
      assert s[..|s| - |r|] == [s[0]] + s[1..][..|s| - 1 - |r|];
    }
  }

  /** `TrimRight` drops a suffix of white space and stops at the last other character. */
  lemma {:induction false} TrimRightDrops(s: string)
    ensures var r := TrimRight(s);
      && |r| <= |s| && r == s[..|r|]
      && AllSpace(s[|r|..])
      && (r != [] ==> !IsSpace(r[|r| - 1]))
  {
    if s != [] && IsSpace(s[|s| - 1]) {
      TrimRightDrops(s[..|s| - 1]);
      var r := TrimRight(s[..|s| - 1]);
      assert s[|r|..] == s[..|s| - 1][|r|..] + [s[|s| - 1]];
    }
  }

  /**
   * `strings.TrimSpace`: the infix of `s` left after removing all leading
   * and trailing white space.
   */
  function TrimSpace(s: string): string {
    TrimRight(TrimLeft(s))
  }

  /** What `TrimSpace` leaves: an infix of `s` with only white space around it and none at its ends. */
  lemma TrimSpaceTrims(s: string)
    ensures var r := TrimSpace(s);
      && (exists i, j :: (0 <= i <= j <= |s| && r == s[i..j] && AllSpace(s[..i]) && AllSpace(s[j..])))
      && (r != [] ==> !IsSpace(r[0]) && !IsSpace(r[|r| - 1]))
  {
    var l := TrimLeft(s);
    var r := TrimRight(l);
    TrimLeftDrops(s);
    TrimRightDrops(l);
    var i := |s| - |l|;
    var j := i + |r|;
    assert s[i..j] == r;
    assert s[j..] == l[|r|..];
  }

  // ---------------------------------------------------------------------
  // filepath.Join and filepath.Base over '/'-separated paths

  /** One path element: not empty, no separator, not `.` or `..`. */
  predicate IsElem(name: string) {
    name != "" && name != "." && name != ".." && '/' !in name
  }

  /** The part of `p` before its last separator. */
  function BeforeLastSep(p: string): (r: string)
    ensures |r| <= |p| && r == p[..|r|]
  {
    if p == "" then ""
    else if p[|p| - 1] == '/' then p[..|p| - 1]
    else BeforeLastSep(p[..|p| - 1])
  }

  /** The parent of a clean absolute directory, as `filepath.Join(dir, "..")` gives it. */
  function Parent(dir: string): string {
    var r := BeforeLastSep(dir);
    if r == "" then "/" else r
  }

  /**
   * `filepath.Join(dir, elem)` for a clean directory `dir` and an `elem`
   * without separator: `""` and `"."` leave `dir`, `".."` climbs one level,
   * and any other element is appended after one separator.
   */
  function Join(dir: string, elem: string): string {
    if elem == "" || elem == "." then dir
    else if elem == ".." then Parent(dir)
    else if dir == "/" then "/" + elem
    else dir + "/" + elem
  }

  /** Joining an element puts it last, after a separator. */
  lemma JoinEndsWith(dir: string, elem: string)
    requires IsElem(elem)
    ensures EndsWith(Join(dir, elem), "/" + elem)
  {
  }

  function TrimTrailingSeps(p: string): string {
    if p != "" && p[|p| - 1] == '/' then TrimTrailingSeps(p[..|p| - 1]) else p
  }

  lemma {:induction false} TrimTrailingSepsDrops(p: string)
    ensures var r := TrimTrailingSeps(p);
      && |r| <= |p| && r == p[..|r|]
      && (r != "" ==> r[|r| - 1] != '/')
  {
    if p != "" && p[|p| - 1] == '/' {
      TrimTrailingSepsDrops(p[..|p| - 1]);
    }
  }

  /** The characters after the last separator of `p`. */
  function LastElem(p: string): string {
    if p == "" || p[|p| - 1] == '/' then "" else LastElem(p[..|p| - 1]) + [p[|p| - 1]]
  }

  /** `LastElem` is a suffix, and not empty when `p` does not end in a separator. */
  lemma {:induction false} LastElemIsSuffix(p: string)
    ensures |LastElem(p)| <= |p|
    ensures forall k :: 0 <= k < |LastElem(p)| ==> LastElem(p)[k] == p[|p| - |LastElem(p)| + k]
    ensures p != "" && p[|p| - 1] != '/' ==> LastElem(p) != ""
  {
    if p != "" && p[|p| - 1] != '/' {
      var init := p[..|p| - 1];
      LastElemIsSuffix(init);
      var r0 := LastElem(init);
      var r := r0 + [p[|p| - 1]];
      assert LastElem(p) == r;
      forall k | 0 <= k < |r|
        ensures r[k] == p[|p| - |r| + k]
      {
        if k < |r0| {
          assert r[k] == r0[k] == init[|init| - |r0| + k];
        }
      }
    }
  }

  lemma {:induction false} LastElemHasNoSep(p: string)
    ensures forall k :: 0 <= k < |LastElem(p)| ==> LastElem(p)[k] != '/'
  {
    if p != "" && p[|p| - 1] != '/' {
      var init := p[..|p| - 1];
      LastElemHasNoSep(init);
      var r0 := LastElem(init);
      var r := r0 + [p[|p| - 1]];
      assert forall k :: 0 <= k < |r0| ==> r[k] == r0[k];
    }
  }

  /** A separator stands right before `LastElem` unless it is all of `p`. */
  lemma {:induction false} LastElemAfterLastSep(p: string)
    ensures var r := LastElem(p);
      |r| < |p| ==> p[|p| - |r| - 1] == '/'
  {
    if p != "" && p[|p| - 1] != '/' {
      var init := p[..|p| - 1];
      LastElemAfterLastSep(init);
      LastElemIsSuffix(init);
      var r0 := LastElem(init);
      if |r0| < |init| {
        assert p[|p| - |r0| - 2] == init[|init| - |r0| - 1];
      }
    }
  }

  /** `LastElem` is the longest suffix without separator. */
  lemma LastElemSuffix(p: string)
    ensures var r := LastElem(p);
      && (forall k :: 0 <= k < |r| ==> r[k] != '/')
      && |r| <= |p| && r == p[|p| - |r|..]
      && (p != "" && p[|p| - 1] != '/' ==> r != "")
      && (|r| < |p| ==> p[|p| - |r| - 1] == '/')
  {
    LastElemIsSuffix(p);
    LastElemHasNoSep(p);
    LastElemAfterLastSep(p);
    var r := LastElem(p);
    assert r == p[|p| - |r|..];
  }

  /**
   * `filepath.Base`: the last element of `path` after trailing separators
   * are dropped; `"."` for the empty path and `"/"` for a path of separators.
   */
  function Base(path: string): (r: string)
    ensures r != ""
    ensures '/' !in path && path != "" ==> r == path
  {
    if path == "" then "."
    else
      var t := TrimTrailingSeps(path);
      if t == "" then "/"
      else
        TrimTrailingSepsDrops(path);
        LastElemSuffix(t);
        LastElemNoSep(path);
        LastElem(t)
  }
  /**
   * `filepath.Base` of a path that has a separator and does not end in one
   * is its last element: non-empty, without separator, after the final one.
   */
  lemma BaseOfPath(path: string)
    requires '/' in path && path[|path| - 1] != '/'
    ensures var b := Base(path); '/' !in b && b != "" && EndsWith(path, "/" + b)
  {
    assert TrimTrailingSeps(path) == path;
    LastElemSuffix(path);
    LastElemShorter(path);
  }

  lemma LastElemShorter(p: string)
    requires '/' in p
    ensures |LastElem(p)| < |p|
  {
    var r := LastElem(p);
    LastElemSuffix(p);
    assert p[|p| - |r|..] == r;
  }


  lemma {:induction false} LastElemNoSep(p: string)
    ensures '/' !in p ==> LastElem(p) == p
    decreases |p|
  {
    if p != "" && '/' !in p {
      LastElemNoSep(p[..|p| - 1]);
      assert p[..|p| - 1] + [p[|p| - 1]] == p;
    }
  }

  lemma {:induction false} LastElemAfterSep(dir: string, name: string)
    requires '/' !in name
    ensures LastElem(dir + "/" + name) == name
    decreases |name|
  {
    var p := dir + "/" + name;
    if name == "" {
      assert p[|p| - 1] == '/';
    } else {
      var init := name[..|name| - 1];
      assert p[..|p| - 1] == dir + "/" + init;
      assert p[|p| - 1] == name[|name| - 1];
      LastElemAfterSep(dir, init);
      assert init + [name[|name| - 1]] == name;
    }
  }

  /** `filepath.Base` undoes joining one element onto a directory. */
  lemma BaseOfJoin(dir: string, name: string)
    requires IsElem(name)
    ensures Base(Join(dir, name)) == name
  {
    var p := Join(dir, name);
    var d := if dir == "/" then "" else dir;
    assert p == d + "/" + name;
    assert p[|p| - 1] == name[|name| - 1];
    assert TrimTrailingSeps(p) == p;
    LastElemAfterSep(d, name);
  }

  // ---------------------------------------------------------------------
  // fmt.Sprintf("%02x", n)

  function HexDigit(d: nat): (c: char)
    requires d < 16
  {
    if d < 10 then (48 + d) as char else (87 + d) as char
  }

  predicate IsHexDigit(c: char) {
    ('0' <= c <= '9') || ('a' <= c <= 'f')
  }

  function DigitValue(c: char): (d: nat)
    requires IsHexDigit(c)
    ensures d < 16 && HexDigit(d) == c
  {
    if c <= '9' then c as int - 48 else c as int - 87
  }

  /** Lower-case hexadecimal digits of `n`, without leading zeros. */
  function Hex(n: nat): (r: string)
    ensures r != [] && forall k :: 0 <= k < |r| ==> IsHexDigit(r[k])
    ensures |r| == 1 <==> n < 16
    decreases n
  {
    if n < 16 then [HexDigit(n)] else Hex(n / 16) + [HexDigit(n % 16)]
  }

  /** `%02x`: lower-case hexadecimal, padded with zeros to two digits. */
  function Hex02(n: nat): (r: string)
    ensures forall k :: 0 <= k < |r| ==> IsHexDigit(r[k])
  {
    var h := Hex(n);
    if |h| < 2 then "0" + h else h
  }

  /** The value of a string of hexadecimal digits (the partner of `Hex`). */
  function ParseHex(s: string): nat
    requires forall k :: 0 <= k < |s| ==> IsHexDigit(s[k])
  {
    if s == [] then 0 else ParseHex(s[..|s| - 1]) * 16 + DigitValue(s[|s| - 1])
  }

  lemma {:induction false} ParseHexOfHex(n: nat)
    ensures ParseHex(Hex(n)) == n
    decreases n
  {
    var h := Hex(n);
    if n >= 16 {
      ParseHexOfHex(n / 16);
      assert h[..|h| - 1] == Hex(n / 16);
      assert DigitValue(h[|h| - 1]) == n % 16;
    } else {
      assert DigitValue(h[0]) == n;
    }
  }

  /** `%02x` round-trips, and has exactly two digits for values below 256. */
  lemma Hex02RoundTrip(n: nat)
    ensures ParseHex(Hex02(n)) == n
    ensures |Hex02(n)| == 2 <==> n < 256
  {
    ParseHexOfHex(n);
    var h := Hex(n);
    if |h| < 2 {
      var r := Hex02(n);
      assert r[..1] == "0";
      assert r[..|r| - 1][..0] == [];
    }
    HexLength(n);
  }

  lemma {:induction false} HexLength(n: nat)
    ensures |Hex(n)| <= 2 <==> n < 256
    decreases n
  {
    if n >= 16 {
      HexLength(n / 16);
    }
  }
}
