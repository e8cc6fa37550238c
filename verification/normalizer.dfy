/**
 The text normaliser `clean_text` (web_scraper_api.py:31-39): collapse runs of
 line breaks, split into lines, strip each line and drop the blank ones, then
 drop every line that contains one of four navigation phrases.
 */
module Normalizer {
  import opened Text

  /** No two line breaks in a row. */
  predicate NoDoubleBreak(s: string) {
    forall i :: 0 <= i < |s| - 1 ==> !(s[i] == '\n' && s[i + 1] == '\n')
  }

  /** `re.sub(r'\n{2,}', '\n', text)`: each run of two or more line breaks becomes one. */
  function CollapseBreaks(s: string): (r: string)
    ensures |r| <= |s|
    ensures |s| > 0 ==> |r| > 0 && r[0] == s[0]
    ensures NoDoubleBreak(r)
    ensures NoDoubleBreak(s) ==> r == s
  {
    if |s| == 0 then []
    else if |s| >= 2 && s[0] == '\n' && s[1] == '\n' then CollapseBreaks(s[1..])
    else
      var rest := CollapseBreaks(s[1..]);
      assert NoDoubleBreak(s) ==> NoDoubleBreak(s[1..]) by {
        if NoDoubleBreak(s) {
          forall i | 0 <= i < |s[1..]| - 1 ensures !(s[1..][i] == '\n' && s[1..][i + 1] == '\n') {
            assert s[1..][i] == s[i + 1] && s[1..][i + 1] == s[i + 2];
          }
        }
      }
      [s[0]] + rest
  }

  /**
   Reference for the collapse, read left to right: a line break is dropped
   exactly when the character kept before it is a line break too.
   `afterBreak` says whether that is so at the start of `s`.
   */
  function DropRepeatedBreaks(s: string, afterBreak: bool): string {
    if s == [] then []
    else if s[0] == '\n' && afterBreak then DropRepeatedBreaks(s[1..], true)
    else [s[0]] + DropRepeatedBreaks(s[1..], s[0] == '\n')
  }

  /** Keeping the last break of each run, as `CollapseBreaks` does, is keeping the first. */
  lemma {:induction false} CollapseDropsRepeatedBreaks(s: string)
    ensures CollapseBreaks(s) == DropRepeatedBreaks(s, false)
  {
    if |s| >= 2 && s[0] == '\n' && s[1] == '\n' {
      CollapseDropsRepeatedBreaks(s[1..]);
      assert s[1..][1..] == s[2..];
    } else if s != [] {
      CollapseDropsRepeatedBreaks(s[1..]);
      if s[0] == '\n' && s[1..] != [] {
        assert s[1..][0] != '\n';
      }
    }
  }

  /** The navigation phrases of web_scraper_api.py:36, matched case-sensitively. */
  const Blacklist: seq<string> := ["Sign In", "Sign Out", "All Articles", "Home"]

  /** Some phrase of `phrases` occurs somewhere in `line`. */
  predicate ContainsAny(line: string, phrases: seq<string>) {
    phrases != [] && (Contains(line, phrases[0]) || ContainsAny(line, phrases[1..]))
  }

  /** The negation of `all(bad not in line for bad in blacklist_keywords)`. */
  predicate IsNoise(line: string) {
    ContainsAny(line, Blacklist)
  }

  /** `[line for line in lines if all(bad not in line for bad in blacklist_keywords)]` */
  function DropNoise(lines: seq<string>): (r: seq<string>)
    ensures forall i :: 0 <= i < |r| ==> !IsNoise(r[i])
    ensures (forall i :: 0 <= i < |lines| ==> !IsNoise(lines[i])) ==> r == lines
  {
    if lines == [] then []
    else
      var rest := DropNoise(lines[1..]);
      if IsNoise(lines[0]) then
        rest
      else
        [lines[0]] + rest
  }

  /**
   The filter keeps exactly the lines that are not noise, each as often as it
   occurs, in their order.
   */
  lemma {:induction false} DropNoiseSelects(lines: seq<string>)
    ensures IsSubsequence(DropNoise(lines), lines)
    ensures forall l :: l in DropNoise(lines) <==> l in lines && !IsNoise(l)
    ensures forall l :: multiset(DropNoise(lines))[l] == if IsNoise(l) then 0 else multiset(lines)[l]
  {
    if lines != [] {
      var rest := DropNoise(lines[1..]);
      DropNoiseSelects(lines[1..]);
      assert lines == [lines[0]] + lines[1..];
      if !IsNoise(lines[0]) {
        assert ([lines[0]] + rest)[1..] == rest;
      }
    }
  }

  /** `clean_text(text)` */
  function CleanText(text: string): (r: seq<string>)
    ensures forall i :: 0 <= i < |r| ==>
              && r[i] != []
              && '\n' !in r[i]
              && Strip(r[i]) == r[i]
              && !IsNoise(r[i])
  {
    var lines := NonBlank(Lines(CollapseBreaks(text)));
    NonBlankHasNoBreak(Lines(CollapseBreaks(text)));
    DropNoiseSelects(lines);
    DropNoise(lines)
  }

  /** The lines that are not the empty string, in order. */
  function DropEmpty(lines: seq<string>): seq<string> {
    if lines == [] then [] else (if lines[0] == [] then [] else [lines[0]]) + DropEmpty(lines[1..])
  }

  lemma {:induction false} DropEmptyCons(lines: seq<string>)
    requires lines != [] && lines[0] == []
    ensures DropEmpty(lines) == DropEmpty(lines[1..])
  {
    assert DropEmpty(lines) == [] + DropEmpty(lines[1..]);
  }

  /**
   Collapsing leaves the first line as it is, and changes the later lines only
   by removing empty ones.
   */
  lemma {:induction false} CollapseKeepsLines(u: string)
    ensures Lines(CollapseBreaks(u))[0] == Lines(u)[0]
    ensures DropEmpty(Lines(CollapseBreaks(u))[1..]) == DropEmpty(Lines(u)[1..])
    ensures NonBlank(Lines(CollapseBreaks(u))[1..]) == NonBlank(Lines(u)[1..])
  {
    if |u| == 0 {
    } else if |u| >= 2 && u[0] == '\n' && u[1] == '\n' {
      var w := u[1..];
      CollapseKeepsLines(w);
      assert Lines(u) == [""] + Lines(w);
      assert Lines(u)[1..] == Lines(w);
      assert Lines(w) == [""] + Lines(w[1..]);
      DropEmptyCons(Lines(w));
    } else {
      var w := u[1..];
      CollapseKeepsLines(w);
      var cw := CollapseBreaks(w);
      assert CollapseBreaks(u) == [u[0]] + cw;
      assert ([u[0]] + cw)[1..] == cw;
      if u[0] == '\n' {
        assert Lines(CollapseBreaks(u)) == [""] + Lines(cw);
        assert Lines(u) == [""] + Lines(w);
        assert NonBlank(Lines(cw)) == NonBlank(Lines(w));
      }
    }
  }

  /**
   The collapse step (web_scraper_api.py:34) never changes the result: the
   empty lines it would remove are dropped by the strip filter anyway.
   */
  lemma {:induction false} CollapseIsRedundant(text: string)
    ensures NonBlank(Lines(CollapseBreaks(text))) == NonBlank(Lines(text))
    ensures CleanText(text) == DropNoise(NonBlank(Lines(text)))
  {
    CollapseKeepsLines(text);
  }

  /**
   The result is the stripped, non-blank lines of the input in their order,
   with exactly the noise lines left out.
   */
  lemma {:induction false} CleanTextSelects(text: string)
    ensures IsSubsequence(CleanText(text), NonBlank(Lines(text)))
    ensures forall l :: l in CleanText(text) <==> l in NonBlank(Lines(text)) && !IsNoise(l)
    ensures forall l :: multiset(CleanText(text))[l] == if IsNoise(l) then 0 else multiset(NonBlank(Lines(text)))[l]
  {
    CollapseIsRedundant(text);
    DropNoiseSelects(NonBlank(Lines(text)));
  }

  /** Cleaning lines joined with line breaks is stripping and filtering those lines. */
  lemma {:induction false} CleanTextOfJoined(lines: seq<string>)
    requires forall i :: 0 <= i < |lines| ==> '\n' !in lines[i]
    ensures CleanText(Join("\n", lines)) == DropNoise(NonBlank(lines))
  {
    if lines == [] {
      CleanTextOfLines("", [""]);
      assert NonBlank([""]) == [];
    } else {
      LinesJoin(lines);
      CleanTextOfLines(Join("\n", lines), lines);
    }
  }

  lemma {:induction false} CleanTextOfLines(text: string, lines: seq<string>)
    requires Lines(text) == lines
    ensures CleanText(text) == DropNoise(NonBlank(lines))
  {
    CollapseIsRedundant(text);
  }

  /** Cleaning the lines of an already cleaned text, joined with line breaks, changes nothing. */
  lemma {:induction false} CleanTextIdempotent(text: string)
    ensures CleanText(Join("\n", CleanText(text))) == CleanText(text)
  {
    var out := CleanText(text);
    CleanTextOfJoined(out);
    NonBlankOfClean(out);
  }

  /** The noise test is a plain case-sensitive substring test. */
  lemma {:induction false} NoiseExamples()
    ensures IsNoise("Homework")
    ensures IsNoise("Back to All Articles")
    ensures !IsNoise("home")
  {
    HomeworkIsNoise();
    BackLinkIsNoise();
    LowerCaseHomeIsNot();
  }

  lemma {:induction false} HomeworkIsNoise()
    ensures IsNoise("Homework")
  {
    assert "Home" <= "Homework";
    assert Contains("Homework", "Home");
    assert ContainsAny("Homework", ["Home"]);
    assert Blacklist[3..] == ["Home"];
  }

  lemma {:induction false} BackLinkIsNoise()
    ensures IsNoise("Back to All Articles")
  {
    var line := "Back to All Articles";
    assert OccursAt(line, "All Articles", 8);
    ContainsAt(line, "All Articles");
    assert ContainsAny(line, ["All Articles", "Home"]);
    assert Blacklist[2..] == ["All Articles", "Home"];
  }

  lemma {:induction false} LowerCaseHomeIsNot()
    ensures !IsNoise("home")
  {
    NotContainsLonger("home", "Sign In");
    NotContainsLonger("home", "Sign Out");
    NotContainsLonger("home", "All Articles");
    assert !("Home" <= "home") by {
      assert "Home"[0] != "home"[0];
    }
    assert "home"[1..] == "ome";
    NotContainsLonger("ome", "Home");
    assert !Contains("home", "Home");
    assert Blacklist[1..][1..][1..][1..] == [];
  }

  /**
   A worked case: a run of line breaks, blank lines and one navigation line.
   The run collapses, and "Sign In" is dropped.
   */
  lemma {:induction false} CleanTextExample(text: string)
    requires text == "A\n\n\nB\nSign In\nC"
    ensures CleanText(text) == ["A", "B", "C"]
  {
    ExampleText(text);
    ExampleLines("A", "B", "Sign In", "C");
    CleanTextOfSample("A", "B", "Sign In", "C");
  }

  lemma {:induction false} ExampleText(text: string)
    requires text == "A\n\n\nB\nSign In\nC"
    ensures text == Join("\n", ["A", "", "", "B", "Sign In", "C"])
  {
    ExampleJoin("A", "", "B", "Sign In", "C");
    assert text == "A" + ("\n" + ("" + ("\n" + ("" + ("\n" + ("B" + ("\n" + ("Sign In" + ("\n" + "C")))))))));
  }

  lemma {:induction false} ExampleLines(a: string, b: string, x: string, c: string)
    requires a == "A" && b == "B" && x == "Sign In" && c == "C"
    ensures a != [] && b != [] && x != [] && c != []
    ensures IsStripped(a) && IsStripped(b) && IsStripped(x) && IsStripped(c)
    ensures '\n' !in a && '\n' !in b && '\n' !in x && '\n' !in c
    ensures !IsNoise(a) && !IsNoise(b) && IsNoise(x) && !IsNoise(c)
  {
    ShortLineIsNotNoise(a);
    ShortLineIsNotNoise(b);
    ShortLineIsNotNoise(c);
    SignInIsNoise(x);
  }

  /** The example's lines, cleaned: the blank lines and the noise line go. */
  lemma {:induction false} CleanTextOfSample(a: string, b: string, x: string, c: string)
    requires a != [] && b != [] && x != [] && c != []
    requires IsStripped(a) && IsStripped(b) && IsStripped(x) && IsStripped(c)
    requires '\n' !in a && '\n' !in b && '\n' !in x && '\n' !in c
    requires !IsNoise(a) && !IsNoise(b) && IsNoise(x) && !IsNoise(c)
    ensures CleanText(Join("\n", [a, "", "", b, x, c])) == [a, b, c]
  {
    CleanTextOfJoined([a, "", "", b, x, c]);
    ExampleNonBlank(a, "", b, x, c);
    ExampleDropNoise(a, b, x, c);
  }

  lemma {:induction false} ExampleJoin(a: string, e: string, b: string, x: string, c: string)
    ensures Join("\n", [a, e, e, b, x, c]) == a + ("\n" + (e + ("\n" + (e + ("\n" + (b + ("\n" + (x + ("\n" + c)))))))))
  {
    ExampleLists(a, e, b, x, c);
    JoinStep(c, []);
    JoinStep(x, [c] + []);
    JoinStep(b, [x] + ([c] + []));
    JoinStep(e, [b] + ([x] + ([c] + [])));
    JoinStep(e, [e] + ([b] + ([x] + ([c] + []))));
    JoinStep(a, [e] + ([e] + ([b] + ([x] + ([c] + [])))));
  }

  /** One step of `"\n".join`: the first piece, then a break before the rest if there is any. */
  lemma {:induction false} JoinStep(l: string, rest: seq<string>)
    ensures Join("\n", [l] + rest) == if rest == [] then l else l + ("\n" + Join("\n", rest))
  {
    assert ([l] + rest)[0] == l && ([l] + rest)[1..] == rest;
  }

  lemma {:induction false} ExampleNonBlank(a: string, e: string, b: string, x: string, c: string)
    requires a != [] && b != [] && x != [] && c != [] && e == []
    requires IsStripped(a) && IsStripped(b) && IsStripped(x) && IsStripped(c)
    ensures NonBlank([a, e, e, b, x, c]) == [a, b, x, c]
  {
    var tail := [b] + ([x] + ([c] + []));
    ExampleLists(a, e, b, x, c);
    NonBlankOfClean([b, x, c]);
    NonBlankStep(e, tail);
    NonBlankStep(e, [e] + tail);
    NonBlankStep(a, [e] + ([e] + tail));
  }

  /** How the example's lists are built up, element by element. */
  lemma {:induction false} ExampleLists<T>(a: T, e: T, b: T, x: T, c: T)
    ensures [a, e, e, b, x, c] == [a] + ([e] + ([e] + ([b] + ([x] + ([c] + [])))))
    ensures [b, x, c] == [b] + ([x] + ([c] + []))
    ensures [a, b, x, c] == [a] + [b, x, c]
    ensures [a, b, x, c] == [a] + ([b] + ([x] + ([c] + [])))
    ensures [a, b, c] == [a] + ([b] + ([c] + []))
  {
  }

  /** One step of the comprehension: the first line is kept, stripped, unless it is blank. */
  lemma {:induction false} NonBlankStep(l: string, rest: seq<string>)
    ensures NonBlank([l] + rest) == if Strip(l) == [] then NonBlank(rest) else [Strip(l)] + NonBlank(rest)
  {
    assert ([l] + rest)[0] == l && ([l] + rest)[1..] == rest;
  }

  lemma {:induction false} ExampleDropNoise(a: string, b: string, x: string, c: string)
    requires !IsNoise(a) && !IsNoise(b) && IsNoise(x) && !IsNoise(c)
    ensures DropNoise([a, b, x, c]) == [a, b, c]
  {
    ExampleLists(a, a, b, x, c);
    DropNoiseStep(c, []);
    DropNoiseStep(x, [c] + []);
    DropNoiseStep(b, [x] + ([c] + []));
    DropNoiseStep(a, [b] + ([x] + ([c] + [])));
  }

  /** One step of the filter: the first line is kept unless it is noise. */
  lemma {:induction false} DropNoiseStep(l: string, rest: seq<string>)
    ensures DropNoise([l] + rest) == if IsNoise(l) then DropNoise(rest) else [l] + DropNoise(rest)
  {
    assert ([l] + rest)[0] == l && ([l] + rest)[1..] == rest;
  }

  lemma {:induction false} SignInIsNoise(line: string)
    requires line == "Sign In"
    ensures IsNoise(line)
  {
    assert Blacklist[0] <= line;
  }

  /** Every navigation phrase has at least four characters, so a shorter line is never noise. */
  lemma {:induction false} ShortLineIsNotNoise(line: string)
    requires |line| < 4
    ensures !IsNoise(line)
  {
    NoneLonger(line, Blacklist);
  }

  lemma {:induction false} NoneLonger(line: string, phrases: seq<string>)
    requires forall i :: 0 <= i < |phrases| ==> |phrases[i]| > |line|
    ensures !ContainsAny(line, phrases)
  {
    if phrases != [] {
      NotContainsLonger(line, phrases[0]);
      NoneLonger(line, phrases[1..]);
    }
  }
}
