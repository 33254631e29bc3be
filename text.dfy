/** The pieces of Rust's `str` that the search relies on: substring
    containment (`str::contains`), lowercasing (`str::to_lowercase`, restricted
    to ASCII letters) and splitting into lines (`str::lines`). */
module Text {

  // ---------------------------------------------------------------------------
  // Containment
  // ---------------------------------------------------------------------------

  /** `q` occurs in `s` starting at position `i`: it is a prefix of `s[i..]`. */
  predicate OccursAt(s: string, q: string, i: nat)
    requires i <= |s|
  {
    q <= s[i..]
  }

  /** `s` contains `q`: `q` is a prefix of some suffix of `s`. */
  predicate Contains(s: string, q: string)
  {
    exists i | 0 <= i <= |s| :: OccursAt(s, q, i)
  }

  /** Every string contains the empty string, so an empty query matches any line. */
  lemma ContainsEmpty(s: string)
    ensures Contains(s, "")
  {
    assert OccursAt(s, "", 0);
  }

  /** A string that holds `q` at position `i` contains `q`. */
  lemma ContainsAt(s: string, q: string, i: nat)
    requires i + |q| <= |s| && s[i..i + |q|] == q
    ensures Contains(s, q)
  {
    assert OccursAt(s, q, i);
  }

  /** A string that contains `q` is at least as long as `q`. */
  lemma ContainsLength(s: string, q: string)
    requires Contains(s, q)
    ensures |q| <= |s|
  {
  }

  /** If the first character of `q` does not occur in `s`, `s` does not contain `q`. */
  lemma NotContainsFirstChar(s: string, q: string)
    requires |q| > 0
    requires forall j :: 0 <= j < |s| ==> s[j] != q[0]
    ensures !Contains(s, q)
  {
    forall i | 0 <= i <= |s|
      ensures !OccursAt(s, q, i)
    {
      if i < |s| {
        assert s[i..][0] == s[i];
      }
    }
  }

  /** If no two adjacent characters of `s` are the first two of `q`, `s` does
      not contain `q`. */
  lemma NotContainsFirstPair(s: string, q: string)
    requires |q| > 1
    requires forall j :: 0 <= j < |s| - 1 ==> !(s[j] == q[0] && s[j + 1] == q[1])
    ensures !Contains(s, q)
  {
    forall i | 0 <= i <= |s|
      ensures !OccursAt(s, q, i)
    {
      if i < |s| - 1 {
        assert s[i..][0] == s[i] && s[i..][1] == s[i + 1];
      }
    }
  }

  // ---------------------------------------------------------------------------
  // Lowercasing (ASCII)
  // ---------------------------------------------------------------------------

  predicate IsUpper(c: char)
  {
    'A' <= c <= 'Z'
  }

  /** The lowercase form of one character: `A`..`Z` become `a`..`z`,
      everything else is unchanged. */
  function LowerChar(c: char): (d: char)
    ensures !IsUpper(d)
    ensures IsUpper(c) ==> d as int == c as int + 32 && 'a' <= d <= 'z'
    ensures !IsUpper(c) ==> d == c
  {
    if IsUpper(c) then (c as int + 32) as char else c
  }

  /** The lowercase form of a string, character by character. */
  function ToLower(s: string): string
  {
    seq(|s|, i requires 0 <= i < |s| => LowerChar(s[i]))
  }

  /** Lowercasing twice is lowercasing once. */
  lemma ToLowerIdempotent(s: string)
    ensures ToLower(ToLower(s)) == ToLower(s)
  {
  }

  /** A string with no uppercase letter is its own lowercase form. */
  lemma ToLowerFixed(s: string)
    requires forall i :: 0 <= i < |s| ==> !IsUpper(s[i])
    ensures ToLower(s) == s
  {
  }

  /** Lowercasing commutes with taking a suffix. */
  lemma ToLowerSuffix(s: string, i: nat)
    requires i <= |s|
    ensures ToLower(s)[i..] == ToLower(s[i..])
  {
  }

  /** Lowercasing preserves containment: a case-sensitive match is also a
      case-insensitive one. */
  lemma ContainsToLower(s: string, q: string)
    requires Contains(s, q)
    ensures Contains(ToLower(s), ToLower(q))
  {
    var i :| 0 <= i <= |s| && OccursAt(s, q, i);
    ToLowerSuffix(s, i);
    assert ToLower(q) <= ToLower(s[i..]);
    assert ToLower(q) <= ToLower(s)[i..];
    assert OccursAt(ToLower(s), ToLower(q), i);
  }

  /** The one-letter strings whose lowercase form is the lowercase letter `c`
      are `c` itself and its uppercase partner. */
  lemma ToLowerIsLetter(s: string, c: char)
    requires 'a' <= c <= 'z'
    ensures ToLower(s) == [c] <==> (s == [c] || s == [(c as int - 32) as char])
  {
  }

  // ---------------------------------------------------------------------------
  // Lines
  // ---------------------------------------------------------------------------

  /** The position of the first `'\n'` in `s`, or `|s|` when there is none. */
  function NewlineIndex(s: string): (i: nat)
    ensures i <= |s|
    ensures i < |s| ==> s[i] == '\n'
    ensures forall j :: 0 <= j < i ==> s[j] != '\n'
  {
    if s == [] || s[0] == '\n' then 0 else 1 + NewlineIndex(s[1..])
  }

  /** A line that ended in `"\r\n"` loses its `'\r'` as well as its `'\n'`. */
  function StripCR(line: string): (r: string)
    ensures r <= line && |line| - 1 <= |r|
    ensures |r| < |line| <==> (|line| > 0 && line[|line| - 1] == '\r')
  {
    if |line| > 0 && line[|line| - 1] == '\r' then line[..|line| - 1] else line
  }

  /** Rust's `str::lines`: the pieces of `s` between `'\n'` characters, each
      piece that was ended by `'\n'` also losing one trailing `'\r'`; a final
      `'\n'` does not start another (empty) line, and the empty string has no
      lines. */
  function Lines(s: string): seq<string>
    decreases |s|
  {
    if s == [] then []
    else
      var i := NewlineIndex(s);
      if i == |s| then [s] else [StripCR(s[..i])] + Lines(s[i + 1..])
  }

  /** Unfolds `Lines` at the first newline of `s`. */
  lemma LinesAt(s: string, i: nat)
    requires i < |s| && s[i] == '\n'
    requires forall j :: 0 <= j < i ==> s[j] != '\n'
    ensures Lines(s) == [StripCR(s[..i])] + Lines(s[i + 1..])
  {
  }

  /** A line without a newline, followed by `'\n'`, is the first line. */
  lemma LinesCons(l: string, rest: string)
    requires '\n' !in l
    ensures Lines(l + "\n" + rest) == [StripCR(l)] + Lines(rest)
  {
    var s := l + "\n" + rest;
    assert forall j :: 0 <= j < |l| ==> s[j] == l[j] && l[j] in l;
    LinesAt(s, |l|);
    assert s[..|l|] == l;
    assert s[|l| + 1..] == rest;
  }

  /** Non-empty text without a newline is a single line, kept whole. */
  lemma LinesSingle(l: string)
    requires l != [] && '\n' !in l
    ensures Lines(l) == [l]
  {
  }

  /** No line holds a newline character. */
  lemma {:induction false} LinesHaveNoNewline(s: string)
    ensures forall l :: l in Lines(s) ==> '\n' !in l
    decreases |s|
  {
    if s != [] {
      var i := NewlineIndex(s);
      if i < |s| {
        LinesHaveNoNewline(s[i + 1..]);
        assert forall c :: c in s[..i] ==> c != '\n';
      }
    }
  }

  /** There are never more lines than characters. */
  lemma {:induction false} LinesCount(s: string)
    ensures |Lines(s)| <= |s|
    decreases |s|
  {
    if s != [] {
      var i := NewlineIndex(s);
      if i < |s| {
        LinesCount(s[i + 1..]);
      }
    }
  }

  /** Writes the lines one after another with a `'\n'` between neighbours. */
  function Joined(lines: seq<string>): string
  {
    if lines == [] then []
    else if |lines| == 1 then lines[0]
    else lines[0] + "\n" + Joined(lines[1..])
  }

  /** A line that `Lines` can give back unchanged: no newline inside and no
      trailing carriage return. */
  predicate IsPlainLine(l: string)
  {
    '\n' !in l && (|l| == 0 || l[|l| - 1] != '\r')
  }

  /** Round trip: splitting plain lines joined by `'\n'` gives the lines back,
      provided the last one is not empty (an empty last line would leave a
      final `'\n'`, which does not start a line). */
  lemma {:induction false} LinesOfJoined(lines: seq<string>)
    requires forall l :: l in lines ==> IsPlainLine(l)
    requires |lines| > 0 && lines[|lines| - 1] != []
    ensures Lines(Joined(lines)) == lines
  {
    var l := lines[0];
    assert IsPlainLine(l);
    if |lines| == 1 {
      LinesSingle(l);
    } else {
      var rest := lines[1..];
      assert rest[|rest| - 1] == lines[|lines| - 1];
      LinesOfJoined(rest);
      LinesCons(l, Joined(rest));
      assert StripCR(l) == l;
    }
  }

  /** A final line ending changes nothing: text that does not end in a line
      break or a carriage return has the same lines with or without a
      trailing `'\n'`. */
  lemma {:induction false} LinesFinalNewline(s: string)
    requires |s| > 0 && s[|s| - 1] != '\n' && s[|s| - 1] != '\r'
    ensures Lines(s + "\n") == Lines(s)
    decreases |s|
  {
    var i := NewlineIndex(s);
    if i == |s| {
      assert '\n' !in s by {
        assert forall c :: c in s ==> exists j :: 0 <= j < |s| && s[j] == c;
      }
      LinesSingle(s);
      LinesCons(s, []);
      assert s + "\n" + [] == s + "\n";
    } else {
      var head, rest := s[..i], s[i + 1..];
      assert '\n' !in head by {
        assert forall c :: c in head ==> exists j :: 0 <= j < i && s[j] == c;
      }
      assert s == head + "\n" + rest;
      assert s + "\n" == head + "\n" + (rest + "\n");
      LinesCons(head, rest);
      LinesCons(head, rest + "\n");
      LinesFinalNewline(rest);
    }
  }
}
