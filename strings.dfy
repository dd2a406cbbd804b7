/** The JavaScript string operations the core relies on, on `seq<char>`.
    Only ASCII case mapping is modelled. */
module Strings {
  import opened Wrappers

  predicate StartsWith(s: string, prefix: string) {
    |prefix| <= |s| && s[..|prefix|] == prefix
  }

  predicate EndsWith(s: string, suffix: string) {
    |suffix| <= |s| && s[|s| - |suffix|..] == suffix
  }

  /** `s.indexOf(p)`: the first position at which `p` occurs in `s`. */
  function IndexOf(s: string, p: string): (r: Option<nat>)
    ensures r.Some? ==> r.value + |p| <= |s| && s[r.value..r.value + |p|] == p
    ensures r.Some? ==> forall j :: 0 <= j < r.value ==> !StartsWith(s[j..], p)
    ensures r.None? ==> forall j :: 0 <= j <= |s| ==> !StartsWith(s[j..], p)
    decreases |s|
  {
    if StartsWith(s, p) then Some(0)
    else if |s| == 0 then None
    else
      var r := IndexOf(s[1..], p);
      assert forall j :: 1 <= j <= |s| ==> s[j..] == s[1..][j - 1..];
      if r.Some? then Some(r.value + 1) else None
  }

  /** `s` less one trailing `/`, if it has one. */
  function DropTrailingSlash(s: string): (r: string)
    ensures |r| <= |s| && s[..|r|] == r
    ensures EndsWith(s, "/") ==> |r| == |s| - 1
  {
    if EndsWith(s, "/") then s[..|s| - 1] else s
  }

  /** `s.replace(/^\//, "")`: `s` less one leading `/`, if it has one. */
  function DropLeadingSlash(s: string): (r: string)
    ensures |r| <= |s| && s[|s| - |r|..] == r
    ensures StartsWith(s, "/") ==> |r| == |s| - 1
  {
    if StartsWith(s, "/") then s[1..] else s
  }

  /** `s.includes(p)`. */
  predicate Contains(s: string, p: string) {
    IndexOf(s, p).Some?
  }

  /** `s.replace(p, r)` with a string pattern: only the first occurrence is replaced. */
  function ReplaceFirst(s: string, p: string, r: string): string {
    match IndexOf(s, p)
    case None => s
    case Some(i) => s[..i] + r + s[i + |p|..]
  }

  /** Every occurrence of `c` removed: what `/`-collapsing must not disturb. */
  function Without(s: string, c: char): (r: string)
    ensures c !in r
  {
    if s == [] then [] else (if s[0] == c then [] else [s[0]]) + Without(s[1..], c)
  }

  lemma {:induction false} WithoutAppend(a: string, b: string, c: char)
    ensures Without(a + b, c) == Without(a, c) + Without(b, c)
  {
    if a != [] {
      assert (a + b)[1..] == a[1..] + b;
      WithoutAppend(a[1..], b, c);
    } else {
      assert a + b == b;
    }
  }

  /** No two adjacent slashes. */
  predicate NoDoubleSlash(s: string) {
    forall i :: 0 <= i < |s| - 1 ==> !(s[i] == '/' && s[i + 1] == '/')
  }

  /** `s.replace(/\/+/g, "/")`: every run of `/` becomes a single `/`. */
  function CollapseSlashes(s: string): (r: string)
    ensures |r| <= |s|
    ensures s != [] ==> r != [] && r[0] == s[0]
    decreases |s|
  {
    if |s| <= 1 then s
    else if s[0] == '/' && s[1] == '/' then CollapseSlashes(s[1..])
    else [s[0]] + CollapseSlashes(s[1..])
  }

  /** Collapsing leaves no `//` behind and keeps every other character, in order. */
  lemma {:induction false} CollapseSlashesSpec(s: string)
    ensures NoDoubleSlash(CollapseSlashes(s))
    ensures Without(CollapseSlashes(s), '/') == Without(s, '/')
    decreases |s|
  {
    if |s| > 1 {
      CollapseSlashesSpec(s[1..]);
      var t := CollapseSlashes(s[1..]);
      if s[0] == '/' && s[1] == '/' {
      } else {
        assert t[0] == s[1];
        var r := [s[0]] + t;
        assert forall i :: 1 <= i < |r| - 1 ==> r[i] == t[i - 1] && r[i + 1] == t[i];
        assert NoDoubleSlash(r);
        assert r[1..] == t;
      }
    }
  }

  /** A string that already has no `//` is left unchanged; hence collapsing is idempotent. */
  lemma {:induction false} CollapseSlashesIdentity(s: string)
    requires NoDoubleSlash(s)
    ensures CollapseSlashes(s) == s
    decreases |s|
  {
    if |s| > 1 {
      assert NoDoubleSlash(s[1..]) by {
        forall i | 0 <= i < |s[1..]| - 1 ensures !(s[1..][i] == '/' && s[1..][i + 1] == '/') {
          assert s[1..][i] == s[i + 1] && s[1..][i + 1] == s[i + 2];
        }
      }
      CollapseSlashesIdentity(s[1..]);
      assert !(s[0] == '/' && s[1] == '/');
      assert s == [s[0]] + s[1..];
    }
  }

  lemma CollapseSlashesIdempotent(s: string)
    ensures CollapseSlashes(CollapseSlashes(s)) == CollapseSlashes(s)
  {
    CollapseSlashesSpec(s);
    CollapseSlashesIdentity(CollapseSlashes(s));
  }

  /** A string ending in anything but `/` collapses independently of what follows it. */
  lemma {:induction false} CollapseSlashesAppend(a: string, b: string)
    requires a != [] && a[|a| - 1] != '/'
    ensures CollapseSlashes(a + b) == CollapseSlashes(a) + CollapseSlashes(b)
    decreases |a|
  {
    if |a| == 1 {
      if b != [] {
        assert (a + b)[0] == a[0] && (a + b)[1..] == b;
        assert CollapseSlashes(a + b) == [a[0]] + CollapseSlashes(b);
      } else {
        assert a + b == a;
      }
    } else {
      assert (a + b)[0] == a[0] && (a + b)[1] == a[1];
      assert (a + b)[1..] == a[1..] + b;
      CollapseSlashesAppend(a[1..], b);
      if a[0] == '/' && a[1] == '/' {
        assert CollapseSlashes(a + b) == CollapseSlashes(a[1..] + b);
        assert CollapseSlashes(a) == CollapseSlashes(a[1..]);
      } else {
        assert CollapseSlashes(a + b) == [a[0]] + CollapseSlashes(a[1..] + b);
        assert CollapseSlashes(a) == [a[0]] + CollapseSlashes(a[1..]);
      }
    }
  }

  /** `s.split(c)` for a one-character separator: the pieces between separators. */
  function Split(s: string, c: char): (parts: seq<string>)
    ensures |parts| >= 1
    ensures forall k :: 0 <= k < |parts| ==> c !in parts[k]
    decreases |s|
  {
    if s == [] then [""]
    else
      var rest := Split(s[1..], c);
      if s[0] == c then [""] + rest
      else [[s[0]] + rest[0]] + rest[1..]
  }

  /** `parts.join(c)`. */
  function Join(parts: seq<string>, c: char): string
    requires |parts| >= 1
  {
    if |parts| == 1 then parts[0] else parts[0] + [c] + Join(parts[1..], c)
  }

  /** Splitting and joining again with the same separator gives back the input. */
  lemma {:induction false} JoinSplit(s: string, c: char)
    ensures Join(Split(s, c), c) == s
    decreases |s|
  {
    if s != [] {
      JoinSplit(s[1..], c);
      var rest := Split(s[1..], c);
      if s[0] != c {
        var parts := [[s[0]] + rest[0]] + rest[1..];
        if |rest| == 1 {
        } else {
          assert parts[1..] == rest[1..];
          assert Join(rest, c) == rest[0] + [c] + Join(rest[1..], c);
        }
      } else {
        assert ([""] + rest)[1..] == rest;
      }
    }
  }

  /** `parts.join("")`. */
  function Concat(parts: seq<string>): string {
    if parts == [] then "" else parts[0] + Concat(parts[1..])
  }

  predicate IsAsciiLetter(c: char) {
    ('a' <= c <= 'z') || ('A' <= c <= 'Z')
  }

  predicate IsAsciiDigit(c: char) {
    '0' <= c <= '9'
  }

  predicate IsAsciiAlnum(c: char) {
    IsAsciiLetter(c) || IsAsciiDigit(c)
  }

  /** `toUpperCase` restricted to ASCII letters. */
  function ToUpperAscii(c: char): (u: char)
    ensures 'a' <= c <= 'z' ==> 'A' <= u <= 'Z'
    ensures !('a' <= c <= 'z') ==> u == c
  {
    if 'a' <= c <= 'z' then (c as int - 'a' as int + 'A' as int) as char else c
  }

  /** `s.replace(/[^...]/g, "-")`: every character outside `keep` becomes `-`. */
  function ReplaceOthers(s: string, keep: char -> bool): (r: string)
    ensures |r| == |s|
    ensures forall i :: 0 <= i < |s| ==> r[i] == if keep(s[i]) then s[i] else '-'
  {
    seq(|s|, i requires 0 <= i < |s| => if keep(s[i]) then s[i] else '-')
  }

  /** Decimal digits of a natural number, as in a template literal. */
  function NatToString(n: nat): (r: string)
    ensures r != []
    ensures forall i :: 0 <= i < |r| ==> IsAsciiDigit(r[i])
  {
    var d := ['0' + (n % 10) as char];
    if n < 10 then d else NatToString(n / 10) + d
  }
}
