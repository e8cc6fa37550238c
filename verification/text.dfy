/**
 The Python string operations the scraper relies on, written out over
 `seq<char>`: `str.strip()`, `str.split("\n")`, `sep.join(...)`, the substring
 test `pat in s`, and the comprehension `[l.strip() for l in ls if l.strip()]`
 that both the text normaliser and BeautifulSoup's `get_text(strip=True)` use.
 */
module Text {

  /** The characters Python's `str.isspace()` accepts, which `str.strip()` removes. */
  predicate IsSpace(c: char) {
    || c == ' ' || ('\t' <= c <= '\r') || ('\U{1C}' <= c <= '\U{1F}') || c == '\U{85}' || c == '\U{A0}' || c == '\U{1680}'
    || ('\U{2000}' <= c <= '\U{200A}') || c == '\U{2028}' || c == '\U{2029}'
    || c == '\U{202F}' || c == '\U{205F}' || c == '\U{3000}'
  }

  /** No whitespace at either end: the strings `strip()` leaves unchanged. */
  predicate IsStripped(s: string) {
    s == [] || (!IsSpace(s[0]) && !IsSpace(s[|s| - 1]))
  }

  predicate AllSpace(s: string) {
    forall i :: 0 <= i < |s| ==> IsSpace(s[i])
  }

  /** The number of whitespace characters `s` starts with. */
  function LeadingSpace(s: string): (k: nat)
    ensures k <= |s|
    ensures forall i :: 0 <= i < k ==> IsSpace(s[i])
    ensures k < |s| ==> !IsSpace(s[k])
  {
    if |s| > 0 && IsSpace(s[0]) then 1 + LeadingSpace(s[1..]) else 0
  }

  /** The length of `s` without its trailing whitespace. */
  function TextEnd(s: string): (k: nat)
    ensures k <= |s|
    ensures forall i :: k <= i < |s| ==> IsSpace(s[i])
    ensures k > 0 ==> !IsSpace(s[k - 1])
  {
    if |s| > 0 && IsSpace(s[|s| - 1]) then TextEnd(s[..|s| - 1]) else |s|
  }

  /**
   `str.strip()`: the part of `s` between its leading and its trailing
   whitespace. The first two clauses fix the result: a block of `s` with only
   whitespace before and after it, and no whitespace at either of its ends.
   */
  function Strip(s: string): (r: string)
    ensures exists a, b :: 0 <= a <= b <= |s| && r == s[a..b] && AllSpace(s[..a]) && AllSpace(s[b..])
    ensures IsStripped(r)
    ensures IsStripped(s) ==> r == s
    ensures r == [] <==> AllSpace(s)
    ensures forall c :: c in r ==> c in s
  {
    var start := LeadingSpace(s);
    var end := TextEnd(s);
    if start < end then
      StripBlock(s, start, end);
      s[start..end]
    else
      assert AllSpace(s[start..]) && s[start..start] == [];
      []
  }

  /** The block between leading and trailing whitespace is what `Strip` promises. */
  lemma {:induction false} StripBlock(s: string, a: nat, b: nat)
    requires a < b <= |s|
    requires forall i :: 0 <= i < a ==> IsSpace(s[i])
    requires forall i :: b <= i < |s| ==> IsSpace(s[i])
    requires !IsSpace(s[a]) && !IsSpace(s[b - 1])
    ensures AllSpace(s[..a]) && AllSpace(s[b..])
    ensures IsStripped(s[a..b])
    ensures IsStripped(s) ==> a == 0 && b == |s|
    ensures !AllSpace(s)
    ensures forall c :: c in s[a..b] ==> c in s
  {
    var r := s[a..b];
    assert r[0] == s[a] && r[|r| - 1] == s[b - 1];
    forall c | c in r ensures c in s {
      var i :| 0 <= i < |r| && r[i] == c;
      assert s[a + i] == c;
    }
  }

  /** `s.split("\n")`: always at least one piece, and no piece holds a line break. */
  function Lines(s: string): (r: seq<string>)
    ensures |r| >= 1
    ensures forall i :: 0 <= i < |r| ==> '\n' !in r[i]
  {
    if |s| == 0 then [""]
    else
      var rest := Lines(s[1..]);
      if s[0] == '\n' then [""] + rest
      else [[s[0]] + rest[0]] + rest[1..]
  }

  /** `sep.join(parts)` */
  function Join(sep: string, parts: seq<string>): (r: string)
    ensures |parts| == 1 ==> r == parts[0]
    ensures parts == [] ==> r == []
  {
    if parts == [] then []
    else if |parts| == 1 then parts[0]
    else parts[0] + sep + Join(sep, parts[1..])
  }

  /** Splitting on line breaks and joining back with line breaks gives the text back. */
  lemma {:induction false} JoinLines(s: string)
    ensures Join("\n", Lines(s)) == s
  {
    if |s| > 0 {
      var rest := Lines(s[1..]);
      JoinLines(s[1..]);
      if s[0] == '\n' {
        JoinAfterEmpty(rest);
        assert s == "\n" + s[1..];
      } else {
        JoinExtendFirst(s[0], rest);
        assert s == [s[0]] + s[1..];
      }
    }
  }

  /** A leading empty piece contributes only its separator. */
  lemma {:induction false} JoinAfterEmpty(parts: seq<string>)
    requires parts != []
    ensures Join("\n", [""] + parts) == "\n" + Join("\n", parts)
  {
    assert ([""] + parts)[1..] == parts;
  }

  /** Extending the first piece by one character extends the join by that character. */
  lemma {:induction false} JoinExtendFirst(c: char, parts: seq<string>)
    requires parts != []
    ensures Join("\n", [[c] + parts[0]] + parts[1..]) == [c] + Join("\n", parts)
  {
    var q := [[c] + parts[0]] + parts[1..];
    if |parts| == 1 {
      assert q == [[c] + parts[0]];
    } else {
      assert q[0] == [c] + parts[0] && q[1..] == parts[1..];
    }
  }

  /** A text without line breaks is a single line. */
  lemma {:induction false} LinesOfLine(x: string)
    requires '\n' !in x
    ensures Lines(x) == [x]
  {
    if |x| > 0 {
      LinesOfLine(x[1..]);
      assert [x[0]] + x[1..] == x;
    }
  }

  /** A line break ends the first line; the rest splits independently. */
  lemma {:induction false} LinesAfterBreak(x: string, y: string)
    requires '\n' !in x
    ensures Lines(x + "\n" + y) == [x] + Lines(y)
  {
    var s := x + "\n" + y;
    if |x| == 0 {
      assert s[0] == '\n' && s[1..] == y;
    } else {
      LinesAfterBreak(x[1..], y);
      assert s[0] == x[0] && s[1..] == x[1..] + "\n" + y;
      assert [x[0]] + x[1..] == x;
    }
  }

  /** Joining lines that hold no line break and splitting again gives the lines back. */
  lemma {:induction false} LinesJoin(parts: seq<string>)
    requires parts != []
    requires forall i :: 0 <= i < |parts| ==> '\n' !in parts[i]
    ensures Lines(Join("\n", parts)) == parts
  {
    if |parts| == 1 {
      LinesOfLine(parts[0]);
    } else {
      LinesJoin(parts[1..]);
      LinesAfterBreak(parts[0], Join("\n", parts[1..]));
      assert [parts[0]] + parts[1..] == parts;
    }
  }

  /** `[l.strip() for l in lines if l.strip()]` */
  function NonBlank(lines: seq<string>): (r: seq<string>)
    ensures |r| <= |lines|
    ensures forall i :: 0 <= i < |r| ==> r[i] != [] && IsStripped(r[i])
  {
    if lines == [] then []
    else
      var head := Strip(lines[0]);
      var rest := NonBlank(lines[1..]);
      if head == [] then rest else [head] + rest
  }

  /** Some line of `lines` strips to `l`. */
  predicate StripsTo(lines: seq<string>, l: string) {
    exists i :: 0 <= i < |lines| && Strip(lines[i]) == l
  }

  lemma {:induction false} NonBlankMembers(lines: seq<string>)
    ensures forall l :: l in NonBlank(lines) <==> l != [] && StripsTo(lines, l)
  {
    if lines != [] {
      var tail := lines[1..];
      NonBlankMembers(tail);
      forall l ensures StripsTo(lines, l) <==> Strip(lines[0]) == l || StripsTo(tail, l) {
        if StripsTo(tail, l) {
          var i :| 0 <= i < |tail| && Strip(tail[i]) == l;
          assert lines[i + 1] == tail[i];
        }
        if StripsTo(lines, l) && Strip(lines[0]) != l {
          var i :| 0 <= i < |lines| && Strip(lines[i]) == l;
          assert tail[i - 1] == lines[i];
        }
      }
    }
  }

  /** Every line is whitespace only. */
  predicate AllBlank(lines: seq<string>) {
    forall i :: 0 <= i < |lines| ==> AllSpace(lines[i])
  }

  lemma {:induction false} NonBlankEmpty(lines: seq<string>)
    ensures NonBlank(lines) == [] <==> AllBlank(lines)
  {
    if lines != [] {
      var tail := lines[1..];
      NonBlankEmpty(tail);
      assert AllBlank(lines) <==> AllSpace(lines[0]) && AllBlank(tail) by {
        assert forall i :: 0 < i < |lines| ==> lines[i] == tail[i - 1];
      }
    }
  }

  /** Every line stripped, one result per line. */
  function StripEach(lines: seq<string>): seq<string> {
    if lines == [] then [] else [Strip(lines[0])] + StripEach(lines[1..])
  }

  /**
   The comprehension is the stripped lines with exactly the empty ones left
   out: in their order, and each non-empty one as often as it occurs.
   */
  lemma {:induction false} NonBlankSelects(lines: seq<string>)
    ensures IsSubsequence(NonBlank(lines), StripEach(lines))
    ensures forall l :: multiset(NonBlank(lines))[l] == if l == [] then 0 else multiset(StripEach(lines))[l]
  {
    if lines != [] {
      var rest := NonBlank(lines[1..]);
      var all := StripEach(lines);
      NonBlankSelects(lines[1..]);
      assert all == [Strip(lines[0])] + StripEach(lines[1..]);
      assert all[1..] == StripEach(lines[1..]);
      if Strip(lines[0]) != [] {
        assert ([Strip(lines[0])] + rest)[1..] == rest;
      }
    }
  }

  /** Stripping never adds a line break, so stripped lines keep having none. */
  lemma {:induction false} NonBlankHasNoBreak(lines: seq<string>)
    requires forall i :: 0 <= i < |lines| ==> '\n' !in lines[i]
    ensures forall l :: l in NonBlank(lines) ==> '\n' !in l
  {
    if lines != [] {
      NonBlankHasNoBreak(lines[1..]);
    }
  }

  /** Lines that are already stripped and non-empty pass through unchanged. */
  lemma {:induction false} NonBlankOfClean(lines: seq<string>)
    requires forall i :: 0 <= i < |lines| ==> lines[i] != [] && IsStripped(lines[i])
    ensures NonBlank(lines) == lines
  {
    if lines != [] {
      NonBlankOfClean(lines[1..]);
      assert [lines[0]] + lines[1..] == lines;
    }
  }

  /** `a` is `b` with some elements left out, the rest kept in order. */
  predicate IsSubsequence<T(==)>(a: seq<T>, b: seq<T>) {
    a == [] || (b != [] && ((a[0] == b[0] && IsSubsequence(a[1..], b[1..])) || IsSubsequence(a, b[1..])))
  }

  /** Python's `pat in s` on strings: `pat` occurs in `s` as a block of consecutive characters. */
  predicate Contains(s: string, pat: string) {
    pat <= s || (s != [] && Contains(s[1..], pat))
  }

  /** A pattern longer than the text cannot occur in it. */
  lemma {:induction false} NotContainsLonger(s: string, pat: string)
    requires |pat| > |s|
    ensures !Contains(s, pat)
  {
    if s != [] {
      NotContainsLonger(s[1..], pat);
    }
  }

  /** `pat` starts at position `i` of `s`. */
  predicate OccursAt(s: string, pat: string, i: int) {
    0 <= i <= |s| - |pat| && s[i..i + |pat|] == pat
  }

  /** The substring test agrees with its definition by position. */
  lemma {:induction false} ContainsAt(s: string, pat: string)
    ensures Contains(s, pat) <==> exists i :: OccursAt(s, pat, i)
  {
    if pat <= s {
      assert OccursAt(s, pat, 0);
    } else if s != [] {
      ContainsAt(s[1..], pat);
      if exists i :: OccursAt(s, pat, i) {
        var i :| OccursAt(s, pat, i);
        assert i != 0;
        OccursInTail(s, pat, i);
      }
      if Contains(s[1..], pat) {
        var i :| OccursAt(s[1..], pat, i);
        OccursInTail(s, pat, i + 1);
      }
    }
  }

  /** An occurrence after the first character is an occurrence in the tail, one place earlier. */
  lemma {:induction false} OccursInTail(s: string, pat: string, i: int)
    requires s != [] && 1 <= i
    ensures OccursAt(s, pat, i) <==> OccursAt(s[1..], pat, i - 1)
  {
    if 0 <= i <= |s| - |pat| {
      var t := s[1..];
      var u := t[i - 1..i - 1 + |pat|];
      var v := s[i..i + |pat|];
      forall k | 0 <= k < |pat|
        ensures u[k] == v[k]
      {
        assert t[i - 1 + k] == s[i + k];
      }
      assert u == v;
    }
  }

  /** A string occurs in any text that has it between a prefix and a suffix. */
  lemma {:induction false} ContainsInside(p: string, u: string, q: string)
    ensures Contains(p + u + q, u)
  {
    var s := p + u + q;
    assert s[|p|..|p| + |u|] == u;
    assert OccursAt(s, u, |p|);
    ContainsAt(s, u);
  }
}
