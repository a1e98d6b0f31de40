// The two C library notions the line parser relies on: a NUL-terminated string inside a
// buffer (what `strlen` and `strcasecmp` see), and comparison up to ASCII letter case.
// A `char` stands for a byte; nothing below depends on its upper bound.
module CStrings {

  const NUL := '\0'

  /** `tolower` in the C locale. */
  function ToLower(c: char): (r: char)
    ensures !('A' <= r <= 'Z')
    ensures r != c ==> 'A' <= c <= 'Z' && r as int == c as int + 32
  {
    if 'A' <= c <= 'Z' then (c as int + 32) as char else c
  }

  function Lower(s: string): (r: string)
    ensures |r| == |s|
    ensures forall i :: 0 <= i < |s| ==> r[i] == ToLower(s[i])
  {
    seq(|s|, i requires 0 <= i < |s| => ToLower(s[i]))
  }

  /** The C string a buffer holds: everything before its first NUL. */
  function CString(buf: string): string {
    if buf == [] || buf[0] == NUL then [] else [buf[0]] + CString(buf[1..])
  }

  /** `strcasecmp(a, b) == 0`. */
  predicate EqualIgnoringCase(a: string, b: string) {
    Lower(a) == Lower(b)
  }

  /** The same letter, or one the capital of the other. */
  predicate SameLetter(a: char, b: char) {
    || a == b
    || ('A' <= a <= 'Z' && b as int == a as int + 32)
    || ('A' <= b <= 'Z' && a as int == b as int + 32)
  }

  lemma SameLetterExactly(a: char, b: char)
    ensures ToLower(a) == ToLower(b) <==> SameLetter(a, b)
  {
  }

  /** Strings compare equal exactly when they have the same letters, capital or not. */
  lemma EqualIgnoringCaseExactly(a: string, b: string)
    ensures EqualIgnoringCase(a, b) <==>
              |a| == |b| && forall i :: 0 <= i < |a| ==> SameLetter(a[i], b[i])
  {
    if |a| == |b| {
      forall i | 0 <= i < |a| ensures Lower(a)[i] == Lower(b)[i] <==> SameLetter(a[i], b[i]) {
        SameLetterExactly(a[i], b[i]);
      }
      assert EqualIgnoringCase(a, b) <==> forall i :: 0 <= i < |a| ==> Lower(a)[i] == Lower(b)[i];
    }
  }

  /** Whatever follows the terminator, stale or not, is invisible. */
  lemma {:induction false} CStringIgnoresTail(s: string, tail: string)
    ensures CString(s + [NUL] + tail) == CString(s)
  {
    var t := s + [NUL] + tail;
    if s == [] {
      assert t[0] == NUL;
    } else if s[0] != NUL {
      assert t[1..] == s[1..] + [NUL] + tail;
      CStringIgnoresTail(s[1..], tail);
    }
  }

  /** The string is the part of the buffer before its first NUL. */
  lemma {:induction false} CStringIsPrefix(buf: string)
    ensures var n := |CString(buf)|;
            && n <= |buf| && CString(buf) == buf[..n]
            && NUL !in buf[..n] && (n < |buf| ==> buf[n] == NUL)
  {
    if buf != [] && buf[0] != NUL {
      CStringIsPrefix(buf[1..]);
      assert buf == [buf[0]] + buf[1..];
    }
  }

  lemma {:induction false} CStringOfPlain(s: string)
    requires NUL !in s
    ensures CString(s) == s
  {
    if s != [] {
      CStringOfPlain(s[1..]);
    }
  }

  /** Appending to a buffer changes its string exactly when no NUL cuts it off before. */
  lemma {:induction false} CStringSnoc(s: string, c: char)
    ensures CString(s + [c]) == if NUL in s || c == NUL then CString(s) else s + [c]
  {
    var t := s + [c];
    if s == [] {
      assert t[1..] == [];
    } else if s[0] != NUL {
      assert t[1..] == s[1..] + [c];
      assert s == [s[0]] + s[1..];
      CStringSnoc(s[1..], c);
      if NUL !in s && c == NUL { CStringOfPlain(s[1..]); }
    }
  }

  lemma {:induction false} CStringLower(s: string)
    ensures CString(Lower(s)) == Lower(CString(s))
  {
    if s != [] && s[0] != NUL {
      assert Lower(s)[1..] == Lower(s[1..]);
      CStringLower(s[1..]);
      assert Lower(CString(s)) == [ToLower(s[0])] + Lower(CString(s[1..]));
    }
  }
}
