/** The Markdown post-processing of `to_md` (graphdoc/render.py, lines 69-72):
    an ordered list of literal substitutions applied to the rendered
    document, each with the semantics of Python's `str.replace`. */
module Markdown {
  import opened Strings

  /** One literal substitution: every leftmost non-overlapping occurrence of
      `pat` becomes `rep`. */
  datatype Rule = Rule(pat: string, rep: string)

  /** Python refuses nothing here, but an empty pattern never occurs in the
      cleanup; every rule of the model has a non-empty pattern. */
  predicate WellFormed(rules: seq<Rule>) {
    forall i :: 0 <= i < |rules| ==> |rules[i].pat| > 0
  }

  /** Every replacement is obtained from its pattern by deleting characters. */
  predicate OnlyDeletes(rules: seq<Rule>) {
    forall i :: 0 <= i < |rules| ==> IsSubsequence(rules[i].rep, rules[i].pat)
  }

  /** The rules applied one after another, each to the whole result of the
      previous one. */
  function ApplyRules(doc: string, rules: seq<Rule>): string
    requires WellFormed(rules)
    decreases |rules|
  {
    if |rules| == 0 then doc
    else ApplyRules(ReplaceAll(doc, rules[0].pat, rules[0].rep), rules[1..])
  }

  /** CR LF line endings become LF. */
  const LineEndings := Rule("\r\n", "\n")

  /** Four consecutive newlines (two blank lines) become two. */
  const BlankLines := Rule("\n\n\n\n", "\n\n")

  /** The HTML leftovers deleted by the loop of line 70, in its order. */
  const HtmlLeftovers: seq<string> := ["</p>\n", "</p>", "<p>", "<code>", "</code>"]

  /** The same leftovers with the two closing-paragraph forms swapped. */
  const SwappedLeftovers: seq<string> := ["</p>", "</p>\n", "<p>", "<code>", "</code>"]

  /** One deleting rule per tag, in order. */
  function Deletions(tags: seq<string>): (rules: seq<Rule>)
    ensures |rules| == |tags|
    ensures forall i :: 0 <= i < |tags| ==> rules[i] == Rule(tags[i], "")
  {
    seq(|tags|, i requires 0 <= i < |tags| => Rule(tags[i], ""))
  }

  /** The whole cleanup of `to_md`, in source order. */
  const CleanupRules: seq<Rule> := [LineEndings, BlankLines] + Deletions(HtmlLeftovers)

  /** The cleanup with "</p>" deleted before "</p>\n". */
  const SwappedRules: seq<Rule> := [LineEndings, BlankLines] + Deletions(SwappedLeftovers)

  /** Every leftover is a non-empty tag opening with '<'. */
  predicate TagsOpenWithAngle(tags: seq<string>) {
    forall i :: 0 <= i < |tags| ==> |tags[i]| > 0 && tags[i][0] == '<'
  }

  lemma LeftoversOpenWithAngle()
    ensures TagsOpenWithAngle(HtmlLeftovers)
    ensures TagsOpenWithAngle(SwappedLeftovers)
  {
  }

  lemma CleanupRulesWellFormed()
    ensures WellFormed(CleanupRules)
    ensures WellFormed(SwappedRules)
  {
    LeftoversOpenWithAngle();
  }

  /** The Markdown post-processing of a rendered document. */
  function Clean(doc: string): string
  {
    CleanupRulesWellFormed();
    ApplyRules(doc, CleanupRules)
  }

  /** The post-processing as it would be with "</p>" stripped first. */
  function SwappedClean(doc: string): string
  {
    CleanupRulesWellFormed();
    ApplyRules(doc, SwappedRules)
  }

  /** Deleting a list of tags deletes the first, then the rest. */
  lemma DeletionsStep(doc: string, tags: seq<string>)
    requires |tags| > 0
    requires WellFormed(Deletions(tags))
    ensures WellFormed(Deletions(tags[1..]))
    ensures ApplyRules(doc, Deletions(tags))
         == ApplyRules(ReplaceAll(doc, tags[0], ""), Deletions(tags[1..]))
  {
    assert Deletions(tags)[1..] == Deletions(tags[1..]);
  }

  /** The cleanup is the two newline rewrites followed by the deletions. */
  lemma CleanStages(doc: string)
    ensures WellFormed(Deletions(HtmlLeftovers))
    ensures Clean(doc) == ApplyRules(
              ReplaceAll(ReplaceAll(doc, "\r\n", "\n"), "\n\n\n\n", "\n\n"),
              Deletions(HtmlLeftovers))
  {
    CleanupRulesWellFormed();
    var d1 := ReplaceAll(doc, "\r\n", "\n");
    var d2 := ReplaceAll(d1, "\n\n\n\n", "\n\n");
    assert CleanupRules[0] == LineEndings && CleanupRules[1..][0] == BlankLines;
    assert ApplyRules(doc, CleanupRules) == ApplyRules(d1, CleanupRules[1..]);
    assert CleanupRules[1..][1..] == Deletions(HtmlLeftovers);
    assert ApplyRules(d1, CleanupRules[1..]) == ApplyRules(d2, Deletions(HtmlLeftovers));
  }

  /** The same decomposition for the swapped order. */
  lemma SwappedCleanStages(doc: string)
    ensures WellFormed(Deletions(SwappedLeftovers))
    ensures SwappedClean(doc) == ApplyRules(
              ReplaceAll(ReplaceAll(doc, "\r\n", "\n"), "\n\n\n\n", "\n\n"),
              Deletions(SwappedLeftovers))
  {
    CleanupRulesWellFormed();
    var d1 := ReplaceAll(doc, "\r\n", "\n");
    var d2 := ReplaceAll(d1, "\n\n\n\n", "\n\n");
    assert SwappedRules[0] == LineEndings && SwappedRules[1..][0] == BlankLines;
    assert ApplyRules(doc, SwappedRules) == ApplyRules(d1, SwappedRules[1..]);
    assert SwappedRules[1..][1..] == Deletions(SwappedLeftovers);
    assert ApplyRules(d1, SwappedRules[1..]) == ApplyRules(d2, Deletions(SwappedLeftovers));
  }

  // ---------------------------------------------------------------------
  // The loop of lines 69-72

  /** The post-processing written as the source writes it: two chained
      replacements, then a loop deleting each leftover in turn. */
  method PostProcess(rendered: string) returns (doc: string)
    ensures doc == Clean(rendered)
    ensures IsSubsequence(doc, rendered)
  {
    CleanStages(rendered);
    LeftoversOpenWithAngle();
    doc := ReplaceAll(ReplaceAll(rendered, "\r\n", "\n"), "\n\n\n\n", "\n\n");
    var tags := HtmlLeftovers;
    var i := 0;
    assert tags[i..] == tags;
    while i < |tags|
      invariant 0 <= i <= |tags|
      invariant ApplyRules(doc, Deletions(tags[i..])) == Clean(rendered)
    {
      DeletionsStep(doc, tags[i..]);
      assert tags[i..][1..] == tags[i + 1..];
      doc := ReplaceAll(doc, tags[i], "");
      i := i + 1;
    }
    assert tags[i..] == [];
    CleanOnlyDeletes(rendered);
  }

  // ---------------------------------------------------------------------
  // Deletion only

  lemma CleanupRulesOnlyDelete()
    ensures OnlyDeletes(CleanupRules)
  {
    assert IsSubsequence("\n", "\n");
    assert IsSubsequence("\n", "\r\n");
    assert IsSubsequence("\n\n", "\n\n");
    assert IsSubsequence("\n\n", "\n\n\n");
    assert IsSubsequence("\n\n", "\n\n\n\n");
  }

  /** Rules that only delete compose into a rewrite that only deletes. */
  lemma {:induction false} ApplyRulesDeletes(doc: string, rules: seq<Rule>)
    requires WellFormed(rules)
    requires OnlyDeletes(rules)
    ensures IsSubsequence(ApplyRules(doc, rules), doc)
    decreases |rules|
  {
    if |rules| == 0 {
      SubsequenceReflexive(doc);
    } else {
      var next := ReplaceAll(doc, rules[0].pat, rules[0].rep);
      ReplaceAllDeletes(doc, rules[0].pat, rules[0].rep);
      ApplyRulesDeletes(next, rules[1..]);
      SubsequenceTransitive(ApplyRules(next, rules[1..]), next, doc);
    }
  }

  /** The cleanup only deletes characters: its output is a subsequence of the
      rendered document, never longer, and holds no character the document
      lacks (in particular no new '\r', '<' or '\n'). */
  lemma CleanOnlyDeletes(doc: string)
    ensures IsSubsequence(Clean(doc), doc)
    ensures |Clean(doc)| <= |doc|
    ensures multiset(Clean(doc)) <= multiset(doc)
    ensures forall c :: c !in doc ==> c !in Clean(doc)
  {
    CleanupRulesWellFormed();
    CleanupRulesOnlyDelete();
    ApplyRulesDeletes(doc, CleanupRules);
    SubsequenceMultiset(Clean(doc), doc);
    forall c | c !in doc
      ensures c !in Clean(doc)
    {
      assert multiset(doc)[c] == 0;
    }
  }

  // ---------------------------------------------------------------------
  // Identity

  /** Rules none of whose patterns occur leave the document unchanged. */
  lemma {:induction false} ApplyRulesUnmatched(doc: string, rules: seq<Rule>)
    requires WellFormed(rules)
    requires forall i :: 0 <= i < |rules| ==> !Contains(doc, rules[i].pat)
    ensures ApplyRules(doc, rules) == doc
    decreases |rules|
  {
    if |rules| > 0 {
      NoMatchUnchanged(doc, rules[0].pat, rules[0].rep);
      ApplyRulesUnmatched(doc, rules[1..]);
    }
  }

  /** A document holding none of the six patterns is returned unchanged. */
  lemma CleanUnchanged(doc: string)
    requires !Contains(doc, "\r\n")
    requires !Contains(doc, "\n\n\n\n")
    requires !Contains(doc, "</p>\n")
    requires !Contains(doc, "</p>")
    requires !Contains(doc, "<p>")
    requires !Contains(doc, "<code>")
    requires !Contains(doc, "</code>")
    ensures Clean(doc) == doc
  {
    CleanupRulesWellFormed();
    ApplyRulesUnmatched(doc, CleanupRules);
  }

  /** Deleting tags that open with '<' changes nothing in a document
      without '<'. */
  lemma DeletionsWithoutAngle(doc: string, tags: seq<string>)
    requires TagsOpenWithAngle(tags)
    requires '<' !in doc
    ensures WellFormed(Deletions(tags))
    ensures ApplyRules(doc, Deletions(tags)) == doc
  {
    var rules := Deletions(tags);
    forall i | 0 <= i < |rules|
      ensures !Contains(doc, rules[i].pat)
    {
      ContainsHasElements(doc, rules[i].pat, 0);
    }
    ApplyRulesUnmatched(doc, rules);
  }

  // ---------------------------------------------------------------------
  // Single passes

  /** A run of `n` newlines loses two of every complete group of four: one
      pass, not a normalisation. */
  lemma {:induction false} CollapseNewlineRun(n: nat)
    ensures ReplaceAll(Repeat('\n', n), "\n\n\n\n", "\n\n") == Repeat('\n', n - 2 * (n / 4))
    decreases n
  {
    if n >= 4 {
      assert Repeat('\n', n) == "\n\n\n\n" + Repeat('\n', n - 4);
      ReplaceAllAtMatch("\n\n\n\n", Repeat('\n', n - 4), "\n\n");
      CollapseNewlineRun(n - 4);
      assert "\n\n" + Repeat('\n', n - 4 - 2 * ((n - 4) / 4)) == Repeat('\n', n - 2 * (n / 4));
    }
  }

  /** The whole cleanup on a run of newlines is the blank-line collapse. */
  lemma CleanNewlineRun(n: nat)
    ensures Clean(Repeat('\n', n)) == Repeat('\n', n - 2 * (n / 4))
  {
    LeftoversOpenWithAngle();
    CleanStages(Repeat('\n', n));
    var run := Repeat('\n', n);
    FirstElementAbsentUnchanged(run, "\r\n", "\n");
    CollapseNewlineRun(n);
    var collapsed := Repeat('\n', n - 2 * (n / 4));
    DeletionsWithoutAngle(collapsed, HtmlLeftovers);
  }

  /** The cleanup is not idempotent: eight newlines become four, which a
      second cleanup turns into two. */
  lemma CleanNotIdempotent()
    ensures Clean(Repeat('\n', 8)) == Repeat('\n', 4)
    ensures Clean(Clean(Repeat('\n', 8))) == Repeat('\n', 2)
    ensures Clean(Clean(Repeat('\n', 8))) != Clean(Repeat('\n', 8))
  {
    CleanNewlineRun(8);
    CleanNewlineRun(4);
  }

  /** Line-ending normalisation is one pass too: of a run of `k` carriage
      returns before a newline only the last pair is rewritten, so "\r\r\n"
      becomes "\r\n". */
  lemma {:induction false} NormalizeCarriageReturnRun(k: nat)
    requires k >= 1
    ensures ReplaceAll(Repeat('\r', k) + "\n", "\r\n", "\n") == Repeat('\r', k - 1) + "\n"
    decreases k
  {
    var s := Repeat('\r', k) + "\n";
    if k == 1 {
      assert s == "\r\n" + [];
      ReplaceAllAtMatch("\r\n", [], "\n");
    } else {
      assert s[..2] != "\r\n" by { assert s[1] == '\r'; }
      assert s[1..] == Repeat('\r', k - 1) + "\n";
      NormalizeCarriageReturnRun(k - 1);
      assert [s[0]] + Repeat('\r', k - 2) + "\n" == Repeat('\r', k - 1) + "\n";
    }
  }

  /** A tag that does not occur is skipped. */
  lemma DeletionSkipped(doc: string, tags: seq<string>)
    requires |tags| > 0
    requires WellFormed(Deletions(tags))
    requires !Contains(doc, tags[0])
    ensures WellFormed(Deletions(tags[1..]))
    ensures ApplyRules(doc, Deletions(tags)) == ApplyRules(doc, Deletions(tags[1..]))
  {
    DeletionsStep(doc, tags);
    NoMatchUnchanged(doc, tags[0], "");
  }

  /** Deleting a tag can join its neighbours into a new tag, so the
      cleanup does not guarantee that no "<p>" is left. */
  lemma CleanCanFormNewTag()
    ensures Clean("<<p>p>") == "<p>"
    ensures Contains(Clean("<<p>p>"), "<p>")
  {
    var s := "<<p>p>";
    CleanStages(s);
    FirstElementAbsentUnchanged(s, "\r\n", "\n");
    FirstElementAbsentUnchanged(s, "\n\n\n\n", "\n\n");
    StripJoinedTag();
    var t := "<p>";
    assert t[0..0 + 3] == t;
    assert MatchAt(t, 0, "<p>");
  }

  /** The deletions turn "<<p>p>" into "<p>". */
  lemma StripJoinedTag()
    ensures WellFormed(Deletions(HtmlLeftovers))
    ensures ApplyRules("<<p>p>", Deletions(HtmlLeftovers)) == "<p>"
  {
    LeftoversOpenWithAngle();
    var s := "<<p>p>";
    var t := "<p>";
    // "</p>\n" and "</p>" need a '/', which s lacks
    ContainsHasElements(s, "</p>\n", 1);
    DeletionSkipped(s, ["</p>\n", "</p>", "<p>", "<code>", "</code>"]);
    ContainsHasElements(s, "</p>", 1);
    DeletionSkipped(s, ["</p>", "<p>", "<code>", "</code>"]);
    // "<p>" is found after the first '<' and deleted, leaving "<" + "p>"
    DeletionsStep(s, ["<p>", "<code>", "</code>"]);
    ParagraphDeletionJoins();
    // "<code>" and "</code>" need a 'c', which is gone
    ContainsHasElements(t, "<code>", 1);
    DeletionSkipped(t, ["<code>", "</code>"]);
    ContainsHasElements(t, "</code>", 2);
    DeletionSkipped(t, ["</code>"]);
  }

  /** The scan passes the first '<', deletes the "<p>" after it, and the
      '<' left in front meets the "p>" left behind. */
  lemma ParagraphDeletionJoins()
    ensures ReplaceAll("<<p>p>", "<p>", "") == "<p>"
  {
    var s := "<<p>p>";
    assert s[..3] != "<p>" by { assert s[1] == '<'; }
    assert s[1..] == "<p>" + "p>";
    ReplaceAllAtMatch("<p>", "p>", "");
    assert ReplaceAll("p>", "<p>", "") == "p>";
    assert [s[0]] + "p>" == "<p>";
  }

  // ---------------------------------------------------------------------
  // Order of the deletions

  /** Text with no '<', '\r' or '\n': nothing in it can start or complete a
      cleanup pattern. */
  predicate Plain(s: string) {
    '<' !in s && '\r' !in s && '\n' !in s
  }

  /** A tag between two stretches without '<' is deleted and its neighbours
      are joined. */
  lemma DeleteTagBetween(a: string, tag: string, b: string)
    requires |tag| > 0 && tag[0] == '<'
    requires '<' !in a && '<' !in b
    ensures ReplaceAll(a + tag + b, tag, "") == a + b
  {
    assert a + tag + b == a + (tag + b);
    ReplaceAllSkipsPrefix(a, tag + b, tag, "");
    ReplaceAllAtMatch(tag, b, "");
    FirstElementAbsentUnchanged(b, tag, "");
  }

  /** A newline followed by text without newlines is not a blank-line run. */
  lemma LoneNewlineSurvivesCollapse(b: string)
    requires '\n' !in b
    ensures ReplaceAll("\n" + b, "\n\n\n\n", "\n\n") == "\n" + b
  {
    var s := "\n" + b;
    FirstElementAbsentUnchanged(b, "\n\n\n\n", "\n\n");
    if |s| >= 4 {
      assert s[..4] != "\n\n\n\n" by { assert s[..4][1] == b[0]; }
      assert s[1..] == b;
    }
  }

  /** The two newline rewrites leave a closed paragraph line alone. */
  lemma NewlineRulesKeepClosedLine(a: string, b: string)
    requires Plain(a) && Plain(b)
    ensures ReplaceAll(ReplaceAll(a + "</p>\n" + b, "\r\n", "\n"), "\n\n\n\n", "\n\n")
         == a + "</p>\n" + b
  {
    var doc := a + "</p>\n" + b;
    FirstElementAbsentUnchanged(doc, "\r\n", "\n");
    assert doc == (a + "</p>") + ("\n" + b);
    ReplaceAllSkipsPrefix(a + "</p>", "\n" + b, "\n\n\n\n", "\n\n");
    LoneNewlineSurvivesCollapse(b);
  }

  /** Because "</p>\n" is deleted before "</p>", a closing paragraph tag
      followed by a newline takes that newline with it; deleting "</p>" first
      would have kept the newline. */
  lemma ClosingParagraphTakesNewline(a: string, b: string)
    requires Plain(a) && Plain(b)
    ensures Clean(a + "</p>\n" + b) == a + b
    ensures SwappedClean(a + "</p>\n" + b) == a + "\n" + b
    ensures Clean(a + "</p>\n" + b) != SwappedClean(a + "</p>\n" + b)
  {
    CleanClosedLine(a, b);
    SwappedCleanClosedLine(a, b);
    assert |a + b| != |a + "\n" + b|;
  }

  /** In source order the tag and its newline go together. */
  lemma CleanClosedLine(a: string, b: string)
    requires Plain(a) && Plain(b)
    ensures Clean(a + "</p>\n" + b) == a + b
  {
    LeftoversOpenWithAngle();
    var doc := a + "</p>\n" + b;
    NewlineRulesKeepClosedLine(a, b);
    CleanStages(doc);
    DeletionsStep(doc, HtmlLeftovers);
    DeleteTagBetween(a, "</p>\n", b);
    DeletionsWithoutAngle(a + b, HtmlLeftovers[1..]);
  }

  /** In the swapped order only the tag goes. */
  lemma SwappedCleanClosedLine(a: string, b: string)
    requires Plain(a) && Plain(b)
    ensures SwappedClean(a + "</p>\n" + b) == a + "\n" + b
  {
    LeftoversOpenWithAngle();
    var doc := a + "</p>\n" + b;
    NewlineRulesKeepClosedLine(a, b);
    SwappedCleanStages(doc);
    DeletionsStep(doc, SwappedLeftovers);
    assert doc == a + "</p>" + ("\n" + b);
    DeleteTagBetween(a, "</p>", "\n" + b);
    assert a + ("\n" + b) == a + "\n" + b;
    DeletionsWithoutAngle(a + "\n" + b, SwappedLeftovers[1..]);
  }

  /** A closing paragraph tag not followed by a newline loses only the tag. */
  lemma ClosingParagraphAlone(a: string, b: string)
    requires Plain(a) && Plain(b)
    ensures Clean(a + "</p>" + b) == a + b
  {
    LeftoversOpenWithAngle();
    var doc := a + "</p>" + b;
    CleanStages(doc);
    FirstElementAbsentUnchanged(doc, "\r\n", "\n");
    FirstElementAbsentUnchanged(doc, "\n\n\n\n", "\n\n");
    ContainsHasElements(doc, "</p>\n", 4);
    DeletionSkipped(doc, HtmlLeftovers);
    DeletionsStep(doc, HtmlLeftovers[1..]);
    DeleteTagBetween(a, "</p>", b);
    DeletionsWithoutAngle(a + b, HtmlLeftovers[2..]);
    assert HtmlLeftovers[1..][1..] == HtmlLeftovers[2..];
  }
}
