/**
 The string functions that the protocol's text goes through: Go's TrimRight, and JavaScript's
 padStart, trim and split.
 */
module Strings {

  /** strings.TrimRight(s, "\r\n"). */
  function TrimNewlines(s: string): string {
    if s != "" && (s[|s| - 1] == '\r' || s[|s| - 1] == '\n') then TrimNewlines(s[..|s| - 1]) else s
  }

  /** What is trimmed are the line breaks at the end, and all of them. */
  lemma {:induction false} TrimsLineBreaks(s: string)
    ensures var r := TrimNewlines(s);
            && r <= s && (forall c <- s[|r|..] :: c == '\r' || c == '\n')
            && (r != "" ==> r[|r| - 1] != '\r' && r[|r| - 1] != '\n')
  {
    if s != "" && (s[|s| - 1] == '\r' || s[|s| - 1] == '\n') {
      TrimsLineBreaks(s[..|s| - 1]);
      var r, n := TrimNewlines(s), |s| - 1;
      assert s[|r|..] == s[..n][|r|..] + [s[n]];
    }
  }

  lemma {:induction false} TrimsAll(s: string)
    requires forall c <- s :: c == '\r' || c == '\n'
    ensures TrimNewlines(s) == ""
  {
    if s != "" {
      assert s[|s| - 1] in s;
      var t := s[..|s| - 1];
      forall c <- t ensures c == '\r' || c == '\n' { assert c in s; }
      TrimsAll(t);
    }
  }

  /** When there is nothing to trim. */
  lemma TrimNewlinesIdle(s: string)
    ensures |TrimNewlines(s)| <= |s|
    ensures TrimNewlines(s) == s <==> s == "" || (s[|s| - 1] != '\r' && s[|s| - 1] != '\n')
  {
  }

  /** Trimming stops at a character that is not a line break. */
  lemma {:induction false} TrimAfter(a: string, b: string)
    requires a != "" && TrimNewlines(a) == a
    ensures TrimNewlines(a + b) == a + TrimNewlines(b)
    decreases |b|
  {
    TrimNewlinesIdle(a);
    if b == "" {
      assert a + b == a;
    } else {
      TrimAfter(a, b[..|b| - 1]);
      assert (a + b)[..|a + b| - 1] == a + b[..|b| - 1];
    }
  }

  predicate HasPrefix(s: string, prefix: string) {
    prefix <= s
  }

  /** s.padStart(len, '0'). */
  function PadStart(s: string, len: nat): (r: string)
    ensures |r| == if |s| >= len then |s| else len
    ensures |s| >= len ==> r == s
    ensures |s| < len ==> r[0] == '0'
    decreases len - |s|
  {
    if |s| >= len then s else PadStart("0" + s, len)
  }

  /** Zeros are put before the text up to the length. */
  lemma {:induction false} PadIsZeros(s: string, len: nat)
    ensures var r, n := PadStart(s, len), if |s| >= len then 0 else len - |s|;
            |r| == n + |s| && r[n..] == s && forall c <- r[..n] :: c == '0'
    decreases len - |s|
  {
    if |s| < len {
      PadIsZeros("0" + s, len);
      var r, n := PadStart(s, len), len - |s|;
      assert r[n - 1..] == "0" + s && r[n..] == r[n - 1..][1..];
      assert r[..n] == r[..n - 1] + [r[n - 1]];
    }
  }

  /** s.slice(0, len). */
  function Take(s: string, len: nat): (r: string)
    ensures r <= s && |r| == if |s| <= len then |s| else len
  {
    if |s| <= len then s else s[..len]
  }

  /** The characters that String.prototype.trim and parseInt skip. */
  predicate IsSpace(c: char) {
    var k := c as int;
    || k == 0x20 || 0x09 <= k <= 0x0D || k == 0xA0 || k == 0x1680 || 0x2000 <= k <= 0x200A
    || k == 0x2028 || k == 0x2029 || k == 0x202F || k == 0x205F || k == 0x3000 || k == 0xFEFF
  }

  function TrimStart(s: string): string {
    if s != "" && IsSpace(s[0]) then TrimStart(s[1..]) else s
  }

  function TrimEnd(s: string): string {
    if s != "" && IsSpace(s[|s| - 1]) then TrimEnd(s[..|s| - 1]) else s
  }

  function Trim(s: string): string {
    TrimEnd(TrimStart(s))
  }

  ghost predicate NoSpace(s: string) {
    forall c <- s :: !IsSpace(c)
  }

  /** Nothing to trim. */
  lemma TrimIdle(s: string)
    requires s == "" || (!IsSpace(s[0]) && !IsSpace(s[|s| - 1]))
    ensures Trim(s) == s
  {
  }

  /** All white space around a text goes, and nothing else. */
  lemma {:induction false} TrimsSpace(before: string, s: string, after: string)
    requires (forall c <- before :: IsSpace(c)) && (forall c <- after :: IsSpace(c))
    requires s != "" && !IsSpace(s[0]) && !IsSpace(s[|s| - 1])
    ensures Trim(before + s + after) == s
  {
    TrimsBefore(before, s + after);
    assert before + s + after == before + (s + after);
    TrimsAfter(s, after);
  }

  lemma {:induction false} TrimsBefore(before: string, s: string)
    requires (forall c <- before :: IsSpace(c)) && s != "" && !IsSpace(s[0])
    ensures TrimStart(before + s) == s
  {
    if before == "" {
      assert before + s == s;
    } else {
      TrimsBefore(before[1..], s);
      assert (before + s)[1..] == before[1..] + s;
    }
  }

  lemma {:induction false} TrimsAfter(s: string, after: string)
    requires (forall c <- after :: IsSpace(c)) && s != "" && !IsSpace(s[|s| - 1])
    ensures TrimEnd(s + after) == s
  {
    if after == "" {
      assert s + after == s;
    } else {
      TrimsAfter(s, after[..|after| - 1]);
      assert (s + after)[..|s + after| - 1] == s + after[..|after| - 1];
    }
  }

  /** s.split(' '). */
  function Split(s: string): (parts: seq<string>)
    ensures parts != []
  {
    if s == "" then [""]
    else if s[0] == ' ' then [""] + Split(s[1..])
    else
      var rest := Split(s[1..]);
      [[s[0]] + rest[0]] + rest[1..]
  }

  /** A word and a blank come off as one part. */
  lemma {:induction false} SplitWord(word: string, rest: string)
    requires NoSpace(word)
    ensures Split(word + " " + rest) == [word] + Split(rest)
  {
    if word == "" {
      assert ("" + " " + rest)[1..] == rest;
    } else {
      SplitWord(word[1..], rest);
      assert (word + " " + rest)[1..] == word[1..] + " " + rest;
      assert word[0] in word && [word[0]] + word[1..] == word;
    }
  }

  lemma {:induction false} SplitLast(word: string)
    requires NoSpace(word)
    ensures Split(word) == [word]
  {
    if word != "" {
      SplitLast(word[1..]);
      assert word[0] in word && [word[0]] + word[1..] == word;
    }
  }

  function JoinWithBlanks(parts: seq<string>): string
    requires parts != []
  {
    if |parts| == 1 then parts[0] else parts[0] + " " + JoinWithBlanks(parts[1..])
  }

  /** The parts are what lies between the blanks. */
  lemma {:induction false} SplitsAtBlanks(s: string)
    ensures JoinWithBlanks(Split(s)) == s && forall part <- Split(s) :: ' ' !in part
  {
    if s != "" {
      var rest := Split(s[1..]);
      SplitsAtBlanks(s[1..]);
      assert s == [s[0]] + s[1..];
      if s[0] == ' ' {
        assert ([""] + rest)[1..] == rest;
      } else {
        assert rest[0] in rest;
        assert ([[s[0]] + rest[0]] + rest[1..])[1..] == rest[1..];
        if |rest| > 1 {
          var more := JoinWithBlanks(rest[1..]);
          assert [s[0]] + rest[0] + " " + more == [s[0]] + (rest[0] + " " + more);
        }
        forall part <- Split(s) ensures ' ' !in part {
          if part != [s[0]] + rest[0] { assert part in rest[1..] && part in rest; }
        }
      }
    }
  }
}
