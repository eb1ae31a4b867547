/**
 * `stripHtml`: turns the markup of a feedback comment into plain text by a
 * fixed chain of global regular-expression replacements, then `trim()`.
 * Each regular expression is a `Pattern`; `MatchLength` says how much of the
 * input it matches at the current position, and `ReplaceAll` is the
 * left-to-right scan of a global `String.prototype.replace`.
 */
module Markup {
  import opened Wrappers
  import opened Text

  /** ASCII lower-casing: the `i` flag on the letters of a tag name. */
  function Lower(c: char): char {
    if 'A' <= c <= 'Z' then (c as int + 32) as char else c
  }

  /** `s` starts with the lower-case `name`, ignoring ASCII case. */
  predicate StartsWithName(s: string, name: string) {
    |name| <= |s| && forall i :: 0 <= i < |name| ==> Lower(s[i]) == name[i]
  }

  /** Position of the first `>` in `s`. */
  function IndexOfGt(s: string): (r: Option<nat>)
    ensures r.None? <==> '>' !in s
    ensures r.Some? ==> r.value < |s| && s[r.value] == '>' && '>' !in s[..r.value]
  {
    if s == [] then None
    else if s[0] == '>' then Some(0)
    else match IndexOfGt(s[1..]) {
      case None => None
      case Some(k) =>
        assert s[..k + 1] == [s[0]] + s[1..][..k];
        Some(k + 1)
    }
  }

  /** The regular expressions `stripHtml` uses. */
  datatype Pattern =
    | BreakTag               // /<br\s*\/?>/i
    | OpenTag(name: string)  // /<name[^>]*>/i ; with an empty name, /<[^>]*>/
    | CloseTag(name: string) // /<\/name>/i
    | SpaceRun               // /\s{2,}/

  /** Length of the match of `p` at the start of `s`, or `None` when there is none. */
  function MatchLength(p: Pattern, s: string): (m: Option<nat>)
    ensures m.Some? ==> 0 < m.value <= |s|
  {
    match p
    case BreakTag =>
      if |s| >= 3 && s[0] == '<' && StartsWithName(s[1..], "br") then
        var j := 3 + LeadingSpaces(s[3..]);
        if j < |s| && s[j] == '>' then Some(j + 1)
        else if j + 1 < |s| && s[j] == '/' && s[j + 1] == '>' then Some(j + 2)
        else None
      else None
    case OpenTag(name) =>
      if s != [] && s[0] == '<' && StartsWithName(s[1..], name) then
        match IndexOfGt(s[1 + |name|..]) {
          case Some(k) => Some(1 + |name| + k + 1)
          case None => None
        }
      else None
    case CloseTag(name) =>
      if |s| >= |name| + 3 && s[0] == '<' && s[1] == '/' && StartsWithName(s[2..], name)
         && s[2 + |name|] == '>'
      then Some(|name| + 3)
      else None
    case SpaceRun =>
      var k := LeadingSpaces(s);
      if k >= 2 then Some(k) else None
  }

  /**
   * `s.replace(p, r)` with the global flag: scanning from the left, every
   * match is replaced by `r` and scanning resumes after it; elsewhere the
   * character is kept. Every output character comes from `s` or from `r`.
   */
  function ReplaceAll(s: string, p: Pattern, r: string): (out: string)
    ensures forall c :: c in out ==> c in s || c in r
    decreases |s|
  {
    if s == [] then []
    else match MatchLength(p, s) {
      case Some(k) => r + ReplaceAll(s[k..], p, r)
      case None => [s[0]] + ReplaceAll(s[1..], p, r)
    }
  }

  /** No `<` is followed, anywhere later, by a `>`: no tag is left. */
  predicate NoTagLeft(s: string) {
    forall i, j :: 0 <= i < j < |s| && s[i] == '<' ==> s[j] != '>'
  }

  /** No two white-space characters stand next to each other. */
  predicate NoDoubleSpace(s: string) {
    forall i :: 0 <= i < |s| - 1 ==> !(IsSpace(s[i]) && IsSpace(s[i + 1]))
  }

  /** One global `replace(pattern, replacement)` of the chain. */
  datatype Rule = Rule(pattern: Pattern, replacement: string)

  /**
   * The replacement chain of `stripHtml`, in order: line breaks, paragraphs,
   * lists and bullets, then every remaining tag, then runs of white space.
   */
  const HtmlRules: seq<Rule> := [
    Rule(BreakTag, "\n"), Rule(OpenTag("p"), "\n\n"), Rule(CloseTag("p"), ""),
    Rule(OpenTag("ul"), ""), Rule(CloseTag("ul"), "\n"), Rule(OpenTag("li"), "\n\U{2022} "),
    Rule(CloseTag("li"), ""), Rule(OpenTag(""), ""), Rule(SpaceRun, " ")]

  /** The rules applied one after the other, the first rule first. */
  function ApplyRules(s: string, rules: seq<Rule>): string
    decreases |rules|
  {
    if rules == [] then s
    else
      var last := rules[|rules| - 1];
      ReplaceAll(ApplyRules(s, rules[..|rules| - 1]), last.pattern, last.replacement)
  }

  /**
   * The text of a feedback comment: `None` (null or undefined) and the empty
   * string give the empty string; otherwise the replacement chain, then trim.
   */
  function StripHtml(html: Option<string>): (r: string)
    ensures html.None? || html == Some([]) ==> r == []
  {
    if html.None? || html.value == [] then [] else Trim(ApplyRules(html.value, HtmlRules))
  }

  /**
   * What `stripHtml` promises its callers: an absent or empty comment gives
   * the empty string, and any result has no surrounding white space, never
   * two white-space characters in a row, and no `<` followed later by a `>`.
   */
  lemma StripHtmlClean(html: Option<string>)
    ensures var r := StripHtml(html);
      (html.None? || html == Some([]) ==> r == []) &&
      (r == [] || (!IsSpace(r[0]) && !IsSpace(r[|r| - 1]))) &&
      NoDoubleSpace(r) && NoTagLeft(r)
  {
    if html.Some? && html.value != [] {
      var s9 := ApplyRules(html.value, HtmlRules);
      RulesLeaveCleanText(html.value);
      TrimKeepsClean(s9);
    }
  }

  /** After the whole chain, no tag is left and no two white-space characters are adjacent. */
  lemma RulesLeaveCleanText(s: string)
    ensures var out := ApplyRules(s, HtmlRules);
      NoDoubleSpace(out) && NoTagLeft(out)
  {
    var rules := HtmlRules;
    var s7 := ApplyRules(s, rules[..7]);
    var s8 := ApplyRules(s, rules[..8]);
    assert rules[..8][..7] == rules[..7] && rules[..8] == rules[..|rules| - 1];
    assert rules[7] == Rule(OpenTag(""), "") && rules[8] == Rule(SpaceRun, " ");
    ApplyRulesLast(s, rules[..8]);
    ApplyRulesLast(s, rules);
    TagRemovalLeavesNoTag(s7);
    CollapseKeepsNoTag(s8);
    CollapseLeavesNoDoubleSpace(s8);
  }

  /** One more rule applies after the ones before it. */
  lemma ApplyRulesLast(s: string, rules: seq<Rule>)
    requires rules != []
    ensures ApplyRules(s, rules) ==
      ReplaceAll(ApplyRules(s, rules[..|rules| - 1]), rules[|rules| - 1].pattern, rules[|rules| - 1].replacement)
  {
  }

  /** `trim()` keeps a text free of tags and double white space. */
  lemma TrimKeepsClean(s: string)
    requires NoDoubleSpace(s) && NoTagLeft(s)
    ensures NoDoubleSpace(Trim(s)) && NoTagLeft(Trim(s))
  {
    var a := LeadingSpaces(s);
    var r := Trim(s);
    SliceKeepsNoTag(s, a, a + |r|);
    SliceKeepsNoDoubleSpace(s, a, a + |r|);
  }

  lemma SliceKeepsNoTag(s: string, a: nat, b: nat)
    requires a <= b <= |s| && NoTagLeft(s)
    ensures NoTagLeft(s[a..b])
  {
    forall i, j | 0 <= i < j < b - a && s[a..b][i] == '<' ensures s[a..b][j] != '>' {
      assert s[a..b][i] == s[a + i] && s[a..b][j] == s[a + j];
    }
  }

  lemma SliceKeepsNoDoubleSpace(s: string, a: nat, b: nat)
    requires a <= b <= |s| && NoDoubleSpace(s)
    ensures NoDoubleSpace(s[a..b])
  {
    forall i | 0 <= i < b - a - 1 ensures !(IsSpace(s[a..b][i]) && IsSpace(s[a..b][i + 1])) {
      assert s[a..b][i] == s[a + i] && s[a..b][i + 1] == s[a + i + 1];
    }
  }

  lemma NoTagLeftCons(c: char, t: string)
    requires NoTagLeft(t) && (c == '<' ==> '>' !in t)
    ensures NoTagLeft([c] + t)
  {
    var s := [c] + t;
    forall i, j | 0 <= i < j < |s| && s[i] == '<' ensures s[j] != '>' {
      assert s[j] == t[j - 1];
      if i > 0 { assert s[i] == t[i - 1]; }
    }
  }

  lemma NoDoubleSpaceCons(c: char, t: string)
    requires NoDoubleSpace(t) && (t == [] || !IsSpace(c) || !IsSpace(t[0]))
    ensures NoDoubleSpace([c] + t)
  {
    var s := [c] + t;
    forall i | 0 <= i < |s| - 1 ensures !(IsSpace(s[i]) && IsSpace(s[i + 1])) {
      assert s[i + 1] == t[i];
      if i > 0 { assert s[i] == t[i - 1]; }
    }
  }

  /** At a `<` with no later `>`, `/<[^>]*>/` cannot match; at any other `<` it takes the tag. */
  lemma {:induction false} TagRemovalLeavesNoTag(s: string)
    ensures NoTagLeft(ReplaceAll(s, OpenTag(""), ""))
    decreases |s|
  {
    if s != [] {
      match MatchLength(OpenTag(""), s) {
        case Some(k) =>
          TagRemovalLeavesNoTag(s[k..]);
          assert ReplaceAll(s, OpenTag(""), "") == "" + ReplaceAll(s[k..], OpenTag(""), "");
        case None =>
          TagRemovalLeavesNoTag(s[1..]);
          var rest := ReplaceAll(s[1..], OpenTag(""), "");
          if s[0] == '<' {
            assert s[1..] == s[1 + |""|..];
            assert '>' !in s[1..];
            assert '>' !in rest;
          }
          NoTagLeftCons(s[0], rest);
      }
    }
  }

  /** Collapsing white-space runs introduces neither `<` nor `>`. */
  lemma {:induction false} CollapseKeepsNoTag(s: string)
    requires NoTagLeft(s)
    ensures NoTagLeft(ReplaceAll(s, SpaceRun, " "))
    decreases |s|
  {
    if s != [] {
      match MatchLength(SpaceRun, s) {
        case Some(k) =>
          SliceKeepsNoTag(s, k, |s|);
          CollapseKeepsNoTag(s[k..]);
          NoTagLeftCons(' ', ReplaceAll(s[k..], SpaceRun, " "));
        case None =>
          SliceKeepsNoTag(s, 1, |s|);
          CollapseKeepsNoTag(s[1..]);
          var rest := ReplaceAll(s[1..], SpaceRun, " ");
          if s[0] == '<' {
            assert forall j :: 0 <= j < |s| - 1 ==> s[1..][j] == s[j + 1];
            assert '>' !in s[1..];
            assert '>' !in rest;
          }
          NoTagLeftCons(s[0], rest);
      }
    }
  }

  /**
   * After `/\s{2,}/g` is replaced by one space, no two white-space characters
   * are adjacent; the output is empty exactly when the input is, and it starts
   * with white space exactly when the input does.
   */
  lemma {:induction false} CollapseLeavesNoDoubleSpace(s: string)
    ensures var out := ReplaceAll(s, SpaceRun, " ");
      NoDoubleSpace(out) && (out == [] <==> s == []) &&
      (s != [] ==> (IsSpace(out[0]) <==> IsSpace(s[0])))
    decreases |s|
  {
    if s != [] {
      match MatchLength(SpaceRun, s) {
        case Some(k) =>
          CollapseLeavesNoDoubleSpace(s[k..]);
          var rest := ReplaceAll(s[k..], SpaceRun, " ");
          assert s[k..] != [] ==> s[k..][0] == s[k];
          NoDoubleSpaceCons(' ', rest);
          assert ReplaceAll(s, SpaceRun, " ") == [' '] + rest;
        case None =>
          CollapseLeavesNoDoubleSpace(s[1..]);
          var rest := ReplaceAll(s[1..], SpaceRun, " ");
          assert s[1..] != [] ==> s[1..][0] == s[1];
          NoDoubleSpaceCons(s[0], rest);
      }
    }
  }

  /** A pattern that only matches at a `<` leaves text without `<` alone. */
  lemma {:induction false} TagPatternKeepsPlainText(s: string, p: Pattern, r: string)
    requires !p.SpaceRun? && '<' !in s
    ensures ReplaceAll(s, p, r) == s
    decreases |s|
  {
    if s != [] {
      assert s[0] == '<' ==> '<' in s;
      assert MatchLength(p, s).None?;
      TagPatternKeepsPlainText(s[1..], p, r);
      assert [s[0]] + s[1..] == s;
    }
  }

  /** Collapsing white-space runs leaves text without a run of two alone. */
  lemma {:induction false} CollapseKeepsSingleSpaces(s: string)
    requires NoDoubleSpace(s)
    ensures ReplaceAll(s, SpaceRun, " ") == s
    decreases |s|
  {
    if s != [] {
      assert |s| > 1 && IsSpace(s[0]) ==> !IsSpace(s[1]);
      assert s[1..] != [] ==> s[1..][0] == s[1];
      assert MatchLength(SpaceRun, s).None?;
      SliceKeepsNoDoubleSpace(s, 1, |s|);
      CollapseKeepsSingleSpaces(s[1..]);
      assert [s[0]] + s[1..] == s;
    }
  }

  /** Rules that only match tags leave text without `<` unchanged. */
  lemma {:induction false} TagRulesKeepPlainText(s: string, rules: seq<Rule>)
    requires '<' !in s
    requires forall i :: 0 <= i < |rules| ==> !rules[i].pattern.SpaceRun?
    ensures ApplyRules(s, rules) == s
    decreases |rules|
  {
    if rules != [] {
      TagRulesKeepPlainText(s, rules[..|rules| - 1]);
      TagPatternKeepsPlainText(s, rules[|rules| - 1].pattern, rules[|rules| - 1].replacement);
    }
  }

  /**
   * Text that is already plain (no `<`, no white space at either end, no two
   * white-space characters together) comes out of `stripHtml` unchanged.
   */
  lemma StripHtmlKeepsPlainText(s: string)
    requires s != [] && '<' !in s && NoDoubleSpace(s)
    requires !IsSpace(s[0]) && !IsSpace(s[|s| - 1])
    ensures StripHtml(Some(s)) == s
  {
    assert ApplyRules(s, HtmlRules) == s by {
      assert HtmlRules[..8] == HtmlRules[..|HtmlRules| - 1];
      assert HtmlRules[8] == Rule(SpaceRun, " ");
      ApplyRulesLast(s, HtmlRules);
      TagRulesKeepPlainText(s, HtmlRules[..8]);
      CollapseKeepsSingleSpaces(s);
    }
  }
}
