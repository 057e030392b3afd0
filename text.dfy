/** Character classes of Python's `re` patterns and the `str` operations the
    detectors use, restricted to ASCII. */
module Text {

  predicate IsDigit(c: char) { '0' <= c <= '9' }
  predicate IsUpper(c: char) { 'A' <= c <= 'Z' }
  predicate IsLower(c: char) { 'a' <= c <= 'z' }
  predicate IsAlnum(c: char) { IsDigit(c) || IsUpper(c) || IsLower(c) }

  /** `\w` */
  predicate IsWord(c: char) { IsAlnum(c) || c == '_' }

  /** `\s`, and the separators of `str.split()` and `str.strip()`:
      space, `\t` to `\r`, and the four separators `\x1c` to `\x1f`. */
  predicate IsSpace(c: char) { c == ' ' || '\t' <= c <= '\r' || '\U{1C}' <= c <= '\U{1F}' }

  predicate AllOf(s: string, p: char -> bool) { forall i | 0 <= i < |s| :: p(s[i]) }

  predicate AllDigits(s: string) { AllOf(s, IsDigit) }

  /** `str.isdigit()`: non-empty and digits only. */
  predicate IsDecimal(s: string) { |s| > 0 && AllDigits(s) }

  /** Whether position p of s holds a word character (positions outside s do not). */
  predicate WordAt(s: string, p: int) { 0 <= p < |s| && IsWord(s[p]) }

  /** `\b` at position p: a word character on exactly one side of p. */
  predicate WordBoundary(s: string, p: int) { WordAt(s, p - 1) != WordAt(s, p) }

  function Min(a: nat, b: nat): nat { if a <= b then a else b }

  /** `s[:n]` */
  function Take(s: string, n: nat): (r: string)
    ensures |r| == Min(n, |s|) && s == r + s[|r|..]
  {
    s[..Min(n, |s|)]
  }

  /** `s[-n:]`, for n at least 1 */
  function TakeLast(s: string, n: nat): (r: string)
    requires n >= 1
    ensures |r| == Min(n, |s|) && s == s[..|s| - |r|] + r
  {
    s[|s| - Min(n, |s|)..]
  }

  /** The characters of s that satisfy p, in order (`re.sub` of the others by ""). */
  function Keep(s: string, p: char -> bool): (r: string)
    ensures AllOf(r, p) && |r| <= |s|
  {
    if s == [] then [] else (if p(s[0]) then [s[0]] else []) + Keep(s[1..], p)
  }

  /** `s.replace(c, "")` */
  function Without(s: string, c: char): (r: string)
    ensures c !in r && |r| <= |s|
    ensures forall x | x in r :: x in s
  {
    if s == [] then [] else (if s[0] == c then [] else [s[0]]) + Without(s[1..], c)
  }

  lemma {:induction false} WithoutAppend(a: string, b: string, c: char)
    ensures Without(a + b, c) == Without(a, c) + Without(b, c)
  {
    if a == [] {
      assert a + b == b;
    } else {
      var head := if a[0] == c then [] else [a[0]];
      assert (a + b)[0] == a[0] && (a + b)[1..] == a[1..] + b;
      calc {
        Without(a + b, c);
        head + Without(a[1..] + b, c);
        { WithoutAppend(a[1..], b, c); }
        head + (Without(a[1..], c) + Without(b, c));
        (head + Without(a[1..], c)) + Without(b, c);
      }
    }
  }

  lemma {:induction false} WithoutAbsent(s: string, c: char)
    requires c !in s
    ensures Without(s, c) == s
  {
    if s != [] {
      WithoutAbsent(s[1..], c);
    }
  }

  /** `re.sub(r'[^\d]', '', s)` */
  function DigitsOnly(s: string): string { Keep(s, IsDigit) }

  lemma {:induction false} KeepAppend(a: string, b: string, p: char -> bool)
    ensures Keep(a + b, p) == Keep(a, p) + Keep(b, p)
  {
    if a == [] {
      assert a + b == b;
    } else {
      var head := if p(a[0]) then [a[0]] else [];
      assert (a + b)[0] == a[0] && (a + b)[1..] == a[1..] + b;
      calc {
        Keep(a + b, p);
        head + Keep(a[1..] + b, p);
        { KeepAppend(a[1..], b, p); }
        head + (Keep(a[1..], p) + Keep(b, p));
        (head + Keep(a[1..], p)) + Keep(b, p);
      }
    }
  }

  lemma {:induction false} KeepAll(s: string, p: char -> bool)
    requires AllOf(s, p)
    ensures Keep(s, p) == s
  {
    if s != [] {
      KeepAll(s[1..], p);
    }
  }

  function UpperChar(c: char): char { if IsLower(c) then (c as int - 32) as char else c }
  function LowerChar(c: char): char { if IsUpper(c) then (c as int + 32) as char else c }

  /** `s.upper()` */
  function Upper(s: string): (r: string)
    ensures |r| == |s|
  {
    seq(|s|, i requires 0 <= i < |s| => UpperChar(s[i]))
  }

  /** `s.lower()` */
  function Lower(s: string): (r: string)
    ensures |r| == |s|
  {
    seq(|s|, i requires 0 <= i < |s| => LowerChar(s[i]))
  }

  /** Whether w occurs in s starting at position i. */
  predicate OccursAt(s: string, w: string, i: int)
  {
    0 <= i && i + |w| <= |s| && s[i..i + |w|] == w
  }

  /** `w in s` */
  predicate Contains(s: string, w: string)
  {
    exists i | 0 <= i <= |s| - |w| :: OccursAt(s, w, i)
  }

  /** `s.index(c)` */
  function IndexOf(s: string, c: char): (i: nat)
    requires c in s
    ensures i < |s| && s[i] == c && c !in s[..i]
  {
    if s[0] == c then 0 else 1 + IndexOf(s[1..], c)
  }

  /** The first part of `s.split(c, 1)` */
  function Before(s: string, c: char): string
    requires c in s
  {
    s[..IndexOf(s, c)]
  }

  /** The second part of `s.split(c, 1)` */
  function After(s: string, c: char): string
    requires c in s
  {
    s[IndexOf(s, c) + 1..]
  }

  /** Splitting at the first c undoes joining with c a part that holds no c. */
  lemma SplitJoined(a: string, c: char, b: string)
    requires c !in a
    ensures c in a + [c] + b
    ensures Before(a + [c] + b, c) == a && After(a + [c] + b, c) == b
  {
    var s := a + [c] + b;
    assert s[|a|] == c;
    assert s[..|a|] == a;
  }

  /** Leading whitespace removed (`s.lstrip()`, and the greedy `\s*`). */
  function DropSpaces(s: string): (r: string)
    ensures |r| <= |s| && r == s[|s| - |r|..]
    ensures r != [] ==> !IsSpace(r[0])
    ensures AllOf(s[..|s| - |r|], IsSpace)
    decreases |s|
  {
    if s != [] && IsSpace(s[0]) then DropSpaces(s[1..]) else s
  }

  /** At most one leading whitespace character removed (the greedy `\s?`). */
  function DropSpace(s: string): (r: string)
    ensures r == s || (s != [] && IsSpace(s[0]) && r == s[1..])
  {
    if s != [] && IsSpace(s[0]) then s[1..] else s
  }

  /** Trailing whitespace removed (`s.rstrip()`). */
  function DropTrailingSpaces(s: string): (r: string)
    ensures |r| <= |s| && r == s[..|r|]
    ensures r != [] ==> !IsSpace(r[|r| - 1])
    ensures AllOf(s[|r|..], IsSpace)
    decreases |s|
  {
    if s != [] && IsSpace(s[|s| - 1]) then DropTrailingSpaces(s[..|s| - 1]) else s
  }

  /** `s.strip()` */
  function Strip(s: string): string { DropTrailingSpaces(DropSpaces(s)) }

  /** Text that neither starts nor ends with whitespace is its own strip. */
  lemma StripNone(s: string)
    requires s != [] && !IsSpace(s[0]) && !IsSpace(s[|s| - 1])
    ensures Strip(s) == s
  {
    assert DropSpaces(s) == s;
  }

  predicate NoSpace(s: string) { forall i | 0 <= i < |s| :: !IsSpace(s[i]) }

  /** A list of non-empty strings without whitespace. */
  predicate Words(parts: seq<string>)
  {
    forall i | 0 <= i < |parts| :: parts[i] != [] && NoSpace(parts[i])
  }

  lemma WordsCons(w: string, ws: seq<string>)
    requires w != [] && NoSpace(w) && Words(ws)
    ensures Words([w] + ws)
  {
    forall i | 0 <= i < |ws| + 1 ensures ([w] + ws)[i] != [] && NoSpace(([w] + ws)[i]) {
      if i > 0 {
        assert ([w] + ws)[i] == ws[i - 1];
      }
    }
  }

  /** The longest prefix of s without whitespace. */
  function TakeWord(s: string): (w: string)
    ensures |w| <= |s| && w == s[..|w|] && NoSpace(w)
    ensures |w| == |s| || IsSpace(s[|w|])
  {
    if s == [] || IsSpace(s[0]) then [] else [s[0]] + TakeWord(s[1..])
  }

  /** `s.split()`: the maximal runs of non-whitespace, in order. */
  function Tokens(s: string): (parts: seq<string>)
    ensures Words(parts)
    decreases |s|
  {
    var t := DropSpaces(s);
    if t == [] then []
    else
      var w := TakeWord(t);
      var rest := Tokens(t[|w|..]);
      WordsCons(w, rest);
      [w] + rest
  }

  /** `" ".join(parts)` */
  function JoinSpace(parts: seq<string>): string
  {
    if parts == [] then ""
    else if |parts| == 1 then parts[0]
    else parts[0] + " " + JoinSpace(parts[1..])
  }

  lemma {:induction false} TakeWordOf(w: string, rest: string)
    requires NoSpace(w)
    requires rest == [] || IsSpace(rest[0])
    ensures TakeWord(w + rest) == w
  {
    if w != [] {
      assert (w + rest)[1..] == w[1..] + rest;
      TakeWordOf(w[1..], rest);
    }
  }

  lemma TokensAfterSpace(s: string)
    ensures Tokens(" " + s) == Tokens(s)
  {
    assert (" " + s)[1..] == s;
  }

  /** A single word splits into itself. */
  lemma TokensOfWord(p: string)
    requires p != [] && NoSpace(p)
    ensures Tokens(p) == [p]
  {
    TakeWordOf(p, []);
    assert p + [] == p;
    assert p[|p|..] == [];
  }

  /** A word followed by a space splits off as the first token. */
  lemma TokensOfWordThen(p: string, rest: string)
    requires p != [] && NoSpace(p)
    ensures Tokens(p + " " + rest) == [p] + Tokens(rest)
  {
    var s := p + " " + rest;
    assert s == p + (" " + rest);
    TakeWordOf(p, " " + rest);
    assert DropSpaces(s) == s;
    assert s[|p|..] == " " + rest;
    TokensAfterSpace(rest);
  }

  lemma HeadTail<T>(s: seq<T>)
    requires s != []
    ensures [s[0]] + s[1..] == s
  {
  }

  lemma PrefixStep<T>(a: seq<T>, s: seq<T>, n: nat)
    requires n < |s|
    ensures a + s[..n + 1] == (a + s[..n]) + [s[n]]
  {
    assert s[..n + 1] == s[..n] + [s[n]];
  }

  lemma TakeStep<T>(s: seq<T>, n: nat)
    requires n < |s|
    ensures s[..n + 1] == s[..n] + [s[n]]
  {
  }

  /** Splitting a space-joined list of words gives back the words. */
  lemma {:induction false} TokensOfJoin(parts: seq<string>)
    requires Words(parts)
    ensures Tokens(JoinSpace(parts)) == parts
  {
    if parts == [] {
    } else if |parts| == 1 {
      TokensOfWord(parts[0]);
    } else {
      var tail := parts[1..];
      assert Words(tail) by {
        forall i | 0 <= i < |tail| ensures tail[i] != [] && NoSpace(tail[i]) {
          assert tail[i] == parts[i + 1];
        }
      }
      TokensOfJoin(tail);
      calc {
        Tokens(JoinSpace(parts));
        Tokens(parts[0] + " " + JoinSpace(tail));
        { TokensOfWordThen(parts[0], JoinSpace(tail)); }
        [parts[0]] + tail;
        { HeadTail(parts); }
        parts;
      }
    }
  }
}
