/** The line search engine: `search_case_sensitive`, `search_case_insensitive`
    and the choice between them that `run` makes on the case-sensitivity flag. */
module Search {
  import opened Text
  import Config

  /** Whether one line is a hit for `query`: plain containment, or, when
      `ignoreCase` holds, containment between the lowercase forms. */
  predicate Matches(line: string, query: string, ignoreCase: bool)
  {
    if ignoreCase then Contains(ToLower(line), ToLower(query)) else Contains(line, query)
  }

  /** The specification of both searches: the lines that match, in their
      original order. */
  function Select(lines: seq<string>, query: string, ignoreCase: bool): seq<string>
  {
    if lines == [] then []
    else
      var last := lines[|lines| - 1];
      Select(lines[..|lines| - 1], query, ignoreCase) + (if Matches(last, query, ignoreCase) then [last] else [])
  }

  // ---------------------------------------------------------------------------
  // The searches
  // ---------------------------------------------------------------------------

  /** `search_case_sensitive`: walks the lines of `contents` and collects the
      ones that contain `query`. */
  method SearchCaseSensitive(query: string, contents: string) returns (results: seq<string>)
    ensures results == Select(Lines(contents), query, false)
  {
    var lines := Lines(contents);
    results := [];
    for n := 0 to |lines|
      invariant results == Select(lines[..n], query, false)
    {
      var line := lines[n];
      assert lines[..n + 1][..n] == lines[..n];
      if Contains(line, query) {
        results := results + [line];
      }
    }
    assert lines[..|lines|] == lines;
  }

  /** `search_case_insensitive`: lowercases the query once, then collects the
      lines whose lowercase form contains it; the lines collected keep their
      original casing. */
  method SearchCaseInsensitive(query: string, contents: string) returns (results: seq<string>)
    ensures results == Select(Lines(contents), query, true)
  {
    var lowerQuery := ToLower(query);
    var lines := Lines(contents);
    results := [];
    for n := 0 to |lines|
      invariant results == Select(lines[..n], query, true)
    {
      var line := lines[n];
      assert lines[..n + 1][..n] == lines[..n];
      if Contains(ToLower(line), lowerQuery) {
        results := results + [line];
      }
    }
    assert lines[..|lines|] == lines;
  }

  /** The dispatch inside `run`, on contents the caller has already read: a
      case-sensitive search when the flag is set, a case-insensitive one
      otherwise. */
  method Run(terms: Config.Terms, contents: string) returns (results: seq<string>)
    ensures results == Select(Lines(contents), terms.query, !terms.caseSensitive)
  {
    if terms.caseSensitive {
      results := SearchCaseSensitive(terms.query, contents);
    } else {
      results := SearchCaseInsensitive(terms.query, contents);
    }
  }

  // ---------------------------------------------------------------------------
  // Properties of the specification
  // ---------------------------------------------------------------------------

  /** A line is in the result exactly when it is one of the lines and matches. */
  lemma {:induction false} SelectMembership(lines: seq<string>, query: string, ignoreCase: bool, x: string)
    ensures x in Select(lines, query, ignoreCase) <==> x in lines && Matches(x, query, ignoreCase)
  {
    if lines != [] {
      var init := lines[..|lines| - 1];
      SelectMembership(init, query, ignoreCase, x);
      assert lines == init + [lines[|lines| - 1]];
    }
  }

  /** One more line extends the result by that line exactly when it matches. */
  lemma SelectAppend(lines: seq<string>, x: string, query: string, ignoreCase: bool)
    ensures Select(lines + [x], query, ignoreCase)
         == Select(lines, query, ignoreCase) + (if Matches(x, query, ignoreCase) then [x] else [])
  {
  }

  /** The result is never longer than the list of lines. */
  lemma {:induction false} SelectLength(lines: seq<string>, query: string, ignoreCase: bool)
    ensures |Select(lines, query, ignoreCase)| <= |lines|
  {
    if lines != [] {
      SelectLength(lines[..|lines| - 1], query, ignoreCase);
    }
  }

  /** The result is the matching lines in order, none dropped and none
      repeated: `idx` gives, for each result, the position of the line it is,
      the positions strictly increase, and every matching position is among them. */
  lemma {:induction false} SelectIndices(lines: seq<string>, query: string, ignoreCase: bool) returns (idx: seq<nat>)
    ensures |idx| == |Select(lines, query, ignoreCase)|
    ensures forall k :: 0 <= k < |idx| ==> idx[k] < |lines| && Select(lines, query, ignoreCase)[k] == lines[idx[k]]
    ensures forall k, m :: 0 <= k < m < |idx| ==> idx[k] < idx[m]
    ensures forall j :: 0 <= j < |lines| && Matches(lines[j], query, ignoreCase) ==> j in idx
  {
    if lines == [] {
      idx := [];
    } else {
      var n := |lines| - 1;
      var init := lines[..n];
      var prev := SelectIndices(init, query, ignoreCase);
      var r := Select(lines, query, ignoreCase);
      var r0 := Select(init, query, ignoreCase);
      if Matches(lines[n], query, ignoreCase) {
        idx := prev + [n];
        assert r == r0 + [lines[n]];
      } else {
        idx := prev;
        assert r == r0;
      }
      forall j | 0 <= j < |lines| && Matches(lines[j], query, ignoreCase)
        ensures j in idx
      {
        if j < n {
          assert init[j] == lines[j];
        }
      }
    }
  }

  /** An empty query matches every line, in either mode, so the search returns
      all lines unchanged. */
  lemma {:induction false} SelectEmptyQuery(lines: seq<string>, ignoreCase: bool)
    ensures Select(lines, "", ignoreCase) == lines
  {
    if lines != [] {
      var n := |lines| - 1;
      SelectEmptyQuery(lines[..n], ignoreCase);
      ContainsEmpty(lines[n]);
      ContainsEmpty(ToLower(lines[n]));
      assert ToLower("") == "";
      assert lines[..n] + [lines[n]] == lines;
    }
  }

  /** Every case-sensitive hit is also a case-insensitive hit, in order: the
      case-sensitive result is the case-insensitive result filtered again. */
  lemma {:induction false} SensitiveRefinesInsensitive(lines: seq<string>, query: string)
    ensures Select(lines, query, false) == Select(Select(lines, query, true), query, false)
  {
    if lines != [] {
      var n := |lines| - 1;
      var last := lines[n];
      SensitiveRefinesInsensitive(lines[..n], query);
      var ins := Select(lines[..n], query, true);
      if Contains(last, query) {
        ContainsToLower(last, query);
      }
      var tail := if Contains(last, query) then [last] else [];
      assert Select(lines, query, false) == Select(lines[..n], query, false) + tail;
      if Matches(last, query, true) {
        assert Select(lines, query, true) == ins + [last];
        assert (ins + [last])[..|ins|] == ins;
        assert Select(ins + [last], query, false) == Select(ins, query, false) + tail;
      } else {
        assert Select(lines, query, true) == ins;
        assert tail == [];
      }
    }
  }

  /** The case-insensitive search does not see the casing of the query. */
  lemma {:induction false} InsensitiveIgnoresQueryCase(lines: seq<string>, query: string)
    ensures Select(lines, query, true) == Select(lines, ToLower(query), true)
  {
    ToLowerIdempotent(query);
    if lines != [] {
      InsensitiveIgnoresQueryCase(lines[..|lines| - 1], query);
    }
  }

  // ---------------------------------------------------------------------------
  // The two scenarios of the crate's unit tests
  // ---------------------------------------------------------------------------

  /** `case_sensitive` test: query "duct" picks the one line with "productive". */
  lemma CaseSensitiveScenario(contents: string)
    requires contents == "Rust:\nsafe, fast, productive.\nPick three."
    ensures Select(Lines(contents), "duct", false) == ["safe, fast, productive."]
  {
    SensitiveScenarioLines(contents);
    SensitiveScenarioSelect();
  }

  lemma SensitiveScenarioLines(contents: string)
    requires contents == "Rust:\nsafe, fast, productive.\nPick three."
    ensures Lines(contents) == ["Rust:", "safe, fast, productive.", "Pick three."]
  {
    var a, b, c := "Rust:", "safe, fast, productive.", "Pick three.";
    SensitiveScenarioPlain([a, b, c]);
    SensitiveScenarioJoined([a, b, c]);
    LinesOfJoined([a, b, c]);
  }

  lemma SensitiveScenarioPlain(lines: seq<string>)
    requires lines == ["Rust:", "safe, fast, productive.", "Pick three."]
    ensures forall l :: l in lines ==> IsPlainLine(l)
  {
  }

  lemma SensitiveScenarioJoined(lines: seq<string>)
    requires lines == ["Rust:", "safe, fast, productive.", "Pick three."]
    ensures Joined(lines) == "Rust:\nsafe, fast, productive.\nPick three."
  {
    assert Joined(lines[2..]) == lines[2];
    assert Joined(lines[1..]) == lines[1] + "\n" + lines[2];
  }

  lemma SensitiveScenarioSelect()
    ensures Select(["Rust:", "safe, fast, productive.", "Pick three."], "duct", false)
            == ["safe, fast, productive."]
  {
    NotContainsFirstChar("Rust:", "duct");
    NotContainsFirstChar("Pick three.", "duct");
    ContainsAt("safe, fast, productive.", "duct", 15);
    SelectAppend([], "Rust:", "duct", false);
    SelectAppend(["Rust:"], "safe, fast, productive.", "duct", false);
    SelectAppend(["Rust:", "safe, fast, productive."], "Pick three.", "duct", false);
  }

  /** `case_insensitive` test: query "rUst" picks "Rust:" and "Trust me.". */
  lemma CaseInsensitiveScenario(contents: string)
    requires contents == "Rust:\n" + ("safe, fast, productive\n" + ("Pick three.\n" + "Trust me."))
    ensures Select(Lines(contents), "rUst", true) == ["Rust:", "Trust me."]
  {
    InsensitiveScenarioLines(contents);
    InsensitiveScenarioSelect();
  }

  lemma InsensitiveScenarioLines(contents: string)
    requires contents == "Rust:\n" + ("safe, fast, productive\n" + ("Pick three.\n" + "Trust me."))
    ensures Lines(contents) == ["Rust:", "safe, fast, productive", "Pick three.", "Trust me."]
  {
    var a, b, c, d := "Rust:", "safe, fast, productive", "Pick three.", "Trust me.";
    InsensitiveScenarioPlain([a, b, c, d]);
    InsensitiveScenarioJoined([a, b, c, d]);
    LinesOfJoined([a, b, c, d]);
  }

  lemma InsensitiveScenarioPlain(lines: seq<string>)
    requires lines == ["Rust:", "safe, fast, productive", "Pick three.", "Trust me."]
    ensures forall l :: l in lines ==> IsPlainLine(l)
  {
  }

  lemma InsensitiveScenarioJoined(lines: seq<string>)
    requires lines == ["Rust:", "safe, fast, productive", "Pick three.", "Trust me."]
    ensures Joined(lines) == "Rust:\n" + ("safe, fast, productive\n" + ("Pick three.\n" + "Trust me."))
  {
    assert lines[3..] == ["Trust me."];
    assert Joined(lines[2..]) == lines[2] + "\n" + Joined(lines[3..]);
    assert lines[2] + "\n" == "Pick three.\n";
    assert Joined(lines[1..]) == lines[1] + "\n" + Joined(lines[2..]);
    assert lines[1] + "\n" == "safe, fast, productive\n";
    assert lines[0] + "\n" == "Rust:\n";
  }

  lemma InsensitiveScenarioSelect()
    ensures Select(["Rust:", "safe, fast, productive", "Pick three.", "Trust me."], "rUst", true)
            == ["Rust:", "Trust me."]
  {
    InsensitiveScenarioMatch("Rust:", 0);
    InsensitiveScenarioMiss("safe, fast, productive");
    InsensitiveScenarioMiss("Pick three.");
    InsensitiveScenarioMatch("Trust me.", 1);
    SelectOfFour("Rust:", "safe, fast, productive", "Pick three.", "Trust me.", "rUst");
  }

  lemma SelectOfFour(a: string, b: string, c: string, d: string, query: string)
    requires Matches(a, query, true) && !Matches(b, query, true)
    requires !Matches(c, query, true) && Matches(d, query, true)
    ensures Select([a, b, c, d], query, true) == [a, d]
  {
    SelectAppend([], a, query, true);
    assert [] + [a] == [a];
    SelectAppend([a], b, query, true);
    assert [a] + [b] == [a, b];
    SelectAppend([a, b], c, query, true);
    assert [a, b] + [c] == [a, b, c];
    SelectAppend([a, b, c], d, query, true);
    assert [a, b, c] + [d] == [a, b, c, d];
  }

  lemma LowerQuery()
    ensures ToLower("rUst") == "rust"
  {
  }

  lemma InsensitiveScenarioMatch(line: string, i: nat)
    requires i + 4 <= |line| && ToLower(line[i..i + 4]) == "rust"
    ensures Matches(line, "rUst", true)
  {
    LowerQuery();
    assert ToLower(line)[i..i + 4] == ToLower(line[i..i + 4]);
    ContainsAt(ToLower(line), "rust", i);
  }

  lemma InsensitiveScenarioMiss(line: string)
    requires forall j :: 0 <= j < |line| - 1 ==> !(LowerChar(line[j]) == 'r' && LowerChar(line[j + 1]) == 'u')
    ensures !Matches(line, "rUst", true)
  {
    LowerQuery();
    NotContainsFirstPair(ToLower(line), "rust");
  }
}
