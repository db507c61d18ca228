/**
 * The results page's text builders: the downloadable summary and the strings
 * its copy buttons put on the clipboard. Each is a list-to-text serialiser; its
 * partner is the split that takes the text back apart.
 */
module Export {
  import opened Base
  import opened Text

  datatype Achievement = Achievement(role: string, achievement: string, keywords: seq<string>)

  /** The stored analysis. Scores and densities are JavaScript numbers, kept as reals. */
  datatype AnalysisResult = AnalysisResult(
    atsScore: real,
    targetScore: real,
    optimizedSummary: string,
    coreSkills: seq<string>,
    personalizedAchievements: seq<Achievement>,
    missingKeywords: seq<string>,
    atsImprovements: seq<string>,
    keywordDensity: map<string, real>)

  const SkillSeparator: string := " • "
  const KeywordSeparator: string := ", "
  const LineBreak: string := "\n"

  /** A list of texts none of which contains `c`. */
  predicate FreeOf(xs: seq<string>, c: char)
  {
    forall k :: 0 <= k < |xs| ==> c !in xs[k]
  }

  // ---------------------------------------------------------------------------
  // Copy buttons

  /** `coreSkills.join(" • ")`: the skills line shown, copied and downloaded. */
  function SkillsLine(skills: seq<string>): (r: string)
    ensures |skills| > 0 && FreeOf(skills, '•') ==> Split(r, SkillSeparator) == skills
  {
    assert |skills| > 0 && FreeOf(skills, '•') ==> Split(Join(skills, SkillSeparator), SkillSeparator) == skills by {
      if |skills| > 0 && FreeOf(skills, '•') {
        assert UniqueMarker(SkillSeparator, 1);
        SplitJoin(skills, SkillSeparator, 1);
      }
    }
    Join(skills, SkillSeparator)
  }

  /** `missingKeywords.join(", ")`. */
  function KeywordsLine(keywords: seq<string>): (r: string)
    ensures |keywords| > 0 && FreeOf(keywords, ',') ==> Split(r, KeywordSeparator) == keywords
  {
    assert |keywords| > 0 && FreeOf(keywords, ',') ==> Split(Join(keywords, KeywordSeparator), KeywordSeparator) == keywords by {
      if |keywords| > 0 && FreeOf(keywords, ',') {
        assert UniqueMarker(KeywordSeparator, 0);
        SplitJoin(keywords, KeywordSeparator, 0);
      }
    }
    Join(keywords, KeywordSeparator)
  }

  /** `` `${role}: ${achievement}` ``. */
  function RoleLine(a: Achievement): string
  {
    a.role + ": " + a.achievement
  }

  /** `` `• ${achievement}` ``. */
  function Bullet(a: Achievement): string
  {
    "• " + a.achievement
  }

  function RoleLines(achievements: seq<Achievement>): (ls: seq<string>)
    ensures |ls| == |achievements|
    ensures forall k :: 0 <= k < |ls| ==> ls[k] == RoleLine(achievements[k])
  {
    seq(|achievements|, k requires 0 <= k < |achievements| => RoleLine(achievements[k]))
  }

  function Bullets(achievements: seq<Achievement>): (ls: seq<string>)
    ensures |ls| == |achievements|
    ensures forall k :: 0 <= k < |ls| ==> ls[k] == Bullet(achievements[k])
  {
    seq(|achievements|, k requires 0 <= k < |achievements| => Bullet(achievements[k]))
  }

  /** The achievements block of the download: exactly one `role: achievement`
      line per achievement, in order, when roles and achievements are single lines. */
  function AchievementLines(achievements: seq<Achievement>): (r: string)
    ensures |achievements| > 0 && SingleLineAchievements(achievements) ==>
      var ls := Split(r, LineBreak);
      |ls| == |achievements| &&
      forall k :: 0 <= k < |ls| ==> ls[k] == achievements[k].role + ": " + achievements[k].achievement
  {
    var ls := RoleLines(achievements);
    assert |achievements| > 0 && SingleLineAchievements(achievements) ==> Split(Join(ls, LineBreak), LineBreak) == ls by {
      if |achievements| > 0 && SingleLineAchievements(achievements) {
        forall k | 0 <= k < |ls|
          ensures '\n' !in ls[k]
        {
          assert ls[k] == achievements[k].role + ": " + achievements[k].achievement;
        }
        LinesRoundTrip(ls);
      }
    }
    Join(ls, LineBreak)
  }

  /** "Copy All Achievements": exactly one `• achievement` line per achievement,
      in order, when achievements are single lines. */
  function AchievementBullets(achievements: seq<Achievement>): (r: string)
    ensures |achievements| > 0 && SingleLineAchievements(achievements) ==>
      var ls := Split(r, LineBreak);
      |ls| == |achievements| &&
      forall k :: 0 <= k < |ls| ==> ls[k] == "• " + achievements[k].achievement
  {
    var ls := Bullets(achievements);
    assert |achievements| > 0 && SingleLineAchievements(achievements) ==> Split(Join(ls, LineBreak), LineBreak) == ls by {
      if |achievements| > 0 && SingleLineAchievements(achievements) {
        forall k | 0 <= k < |ls|
          ensures '\n' !in ls[k]
        {
          assert ls[k] == "• " + achievements[k].achievement;
        }
        LinesRoundTrip(ls);
      }
    }
    Join(ls, LineBreak)
  }

  // ---------------------------------------------------------------------------
  // Numbering

  predicate IsDigit(c: char)
  {
    '0' <= c <= '9'
  }

  function DigitChar(d: nat): (c: char)
    requires d < 10
    ensures IsDigit(c)
  {
    (48 + d) as char
  }

  /** The decimal rendering of a natural number, as a template literal prints it. */
  function NatToString(n: nat): (s: string)
    ensures |s| > 0 && forall i :: 0 <= i < |s| ==> IsDigit(s[i])
    ensures |s| > 1 ==> s[0] != '0'
    ensures n < 10 <==> |s| == 1
  {
    if n < 10 then [DigitChar(n)]
    else
      var t := NatToString(n / 10);
      assert n / 10 >= 10 ==> |t| > 1;
      t + [DigitChar(n % 10)]
  }

  function DigitValue(c: char): nat
    requires IsDigit(c)
  {
    (c as int) - 48
  }

  /** The value of a string of decimal digits. */
  function ParseDecimal(s: string): nat
    requires forall i :: 0 <= i < |s| ==> IsDigit(s[i])
  {
    if s == [] then 0
    else ParseDecimal(s[..|s| - 1]) * 10 + DigitValue(s[|s| - 1])
  }

  /** Reading the rendering back gives the number. */
  lemma {:induction false} NatToStringRoundTrip(n: nat)
    ensures ParseDecimal(NatToString(n)) == n
  {
    var s := NatToString(n);
    if n >= 10 {
      NatToStringRoundTrip(n / 10);
      assert s[..|s| - 1] == NatToString(n / 10);
    }
  }

  /** `` `${index + 1}. ${improvement}` ``: numbering starts at 1. */
  function Numbered(items: seq<string>): (ls: seq<string>)
    ensures |ls| == |items|
    ensures forall k :: 0 <= k < |ls| ==> ls[k] == NatToString(k + 1) + ". " + items[k]
  {
    seq(|items|, k requires 0 <= k < |items| => NatToString(k + 1) + ". " + items[k])
  }

  /** The improvements block of the download: one numbered line per improvement,
      in order, when the improvements are single lines. */
  function ImprovementLines(items: seq<string>): (r: string)
    ensures |items| > 0 && FreeOf(items, '\n') ==>
      var ls := Split(r, LineBreak);
      |ls| == |items| &&
      forall k :: 0 <= k < |ls| ==> ls[k] == NatToString(k + 1) + ". " + items[k]
  {
    var ls := Numbered(items);
    assert |items| > 0 && FreeOf(items, '\n') ==> Split(Join(ls, LineBreak), LineBreak) == ls by {
      if |items| > 0 && FreeOf(items, '\n') {
        forall k | 0 <= k < |ls|
          ensures '\n' !in ls[k]
        {
          var d := NatToString(k + 1);
          assert '\n' !in d by {
            forall i | 0 <= i < |d|
              ensures d[i] != '\n'
            {
              assert IsDigit(d[i]);
            }
          }
          assert ls[k] == d + ". " + items[k];
        }
        LinesRoundTrip(ls);
      }
    }
    Join(ls, LineBreak)
  }

  // ---------------------------------------------------------------------------
  // Score label

  const GoodThreshold: real := 80.0

  /** The label under the current score. */
  function ScoreLabel(score: real): (text: string)
    ensures text == "Good" || text == "Needs Improvement"
    ensures text == "Good" <==> score >= GoodThreshold
  {
    if score >= GoodThreshold then "Good" else "Needs Improvement"
  }

  // ---------------------------------------------------------------------------
  // The download

  const Title: string := "ATS-OPTIMIZED CV SECTIONS"
  const Rule: string := "========================"

  /** The lines of the download before the achievements block. */
  function Preamble(r: AnalysisResult): seq<string>
  {
    ["", Title, Rule,
     "", "PROFESSIONAL SUMMARY:", r.optimizedSummary,
     "", "CORE SKILLS:", SkillsLine(r.coreSkills),
     "", "PERSONALIZED ACHIEVEMENTS:"]
  }

  /** The lines between the achievements block and the improvements block. */
  function Middle(r: AnalysisResult): seq<string>
  {
    ["", "MISSING KEYWORDS TO ADD:", KeywordsLine(r.missingKeywords),
     "", "ATS IMPROVEMENTS:"]
  }

  /** The template's lines; the two list blocks are one entry each. */
  function Template(r: AnalysisResult): seq<string>
  {
    Preamble(r) + [AchievementLines(r.personalizedAchievements)]
    + Middle(r) + [ImprovementLines(r.atsImprovements)] + [""]
  }

  /** The text of `ats-optimized-cv-sections.txt`: the template literal, which
      opens and closes with a line break. */
  function DownloadContent(r: AnalysisResult): (text: string)
    ensures |text| >= 2 && text[0] == '\n' && text[|text| - 1] == '\n'
  {
    var t := Template(r);
    var body := Preamble(r) + [AchievementLines(r.personalizedAchievements)]
      + Middle(r) + [ImprovementLines(r.atsImprovements)];
    assert t == body + [""];
    JoinConcat(body, [""], LineBreak);
    assert t[0] == "" && t[1..][0] == Title;
    Join(t, LineBreak)
  }

  // ---------------------------------------------------------------------------
  // Round trips

  /** Lines without line breaks come back from their join. */
  lemma LinesRoundTrip(ls: seq<string>)
    requires |ls| > 0 && FreeOf(ls, '\n')
    ensures Split(Join(ls, LineBreak), LineBreak) == ls
  {
    assert UniqueMarker(LineBreak, 0);
    SplitJoin(ls, LineBreak, 0);
  }

  /** Roles and achievements without line breaks. */
  predicate SingleLineAchievements(achievements: seq<Achievement>)
  {
    forall k :: 0 <= k < |achievements| ==> '\n' !in achievements[k].role && '\n' !in achievements[k].achievement
  }

  /** The improvements are numbered 1, 2, 3, … one per line, in order, and the
      number in front of the k-th line reads back as k + 1. */
  lemma ImprovementLinesSplit(items: seq<string>)
    requires |items| > 0 && FreeOf(items, '\n')
    ensures var ls := Split(ImprovementLines(items), LineBreak);
      |ls| == |items| &&
      forall k :: 0 <= k < |ls| ==> ls[k] == NatToString(k + 1) + ". " + items[k] && ParseDecimal(NatToString(k + 1)) == k + 1
  {
    forall n | 1 <= n <= |items|
      ensures ParseDecimal(NatToString(n)) == n
    {
      NatToStringRoundTrip(n);
    }
  }

  /** The download, read line by line: the fixed headings and the one-line
      fields in place, and each list block contributing its own lines. */
  lemma DownloadLines(r: AnalysisResult)
    requires '\n' !in r.optimizedSummary
    requires '\n' !in SkillsLine(r.coreSkills) && '\n' !in KeywordsLine(r.missingKeywords)
    ensures Split(DownloadContent(r), LineBreak)
         == Preamble(r)
          + Split(AchievementLines(r.personalizedAchievements), LineBreak)
          + Middle(r)
          + Split(ImprovementLines(r.atsImprovements), LineBreak)
          + [""]
  {
    var a := [AchievementLines(r.personalizedAchievements)];
    var i := [ImprovementLines(r.atsImprovements)];
    var p, m := Preamble(r), Middle(r);
    assert LineBreak == ['\n'];
    SplitJoinEach(Template(r), '\n');
    SplitEachAppend(p + a + m + i, [""], LineBreak);
    SplitEachAppend(p + a + m, i, LineBreak);
    SplitEachAppend(p + a, m, LineBreak);
    SplitEachAppend(p, a, LineBreak);
    PreamblePlain(r);
    MiddlePlain(r);
    SplitEachSingle(a[0], LineBreak);
    SplitEachSingle(i[0], LineBreak);
    SplitEachSingle("", LineBreak);
    assert Split("", LineBreak) == [""];
  }

  lemma SplitEachSingle(x: string, sep: string)
    requires |sep| > 0
    ensures SplitEach([x], sep) == Split(x, sep)
  {
    assert [x][1..] == [];
  }

  lemma PreamblePlain(r: AnalysisResult)
    requires '\n' !in r.optimizedSummary && '\n' !in SkillsLine(r.coreSkills)
    ensures SplitEach(Preamble(r), LineBreak) == Preamble(r)
  {
    assert LineBreak == ['\n'];
    assert FreeOf(Preamble(r), '\n');
    SplitEachPlain(Preamble(r), '\n');
  }

  lemma MiddlePlain(r: AnalysisResult)
    requires '\n' !in KeywordsLine(r.missingKeywords)
    ensures SplitEach(Middle(r), LineBreak) == Middle(r)
  {
    assert LineBreak == ['\n'];
    assert FreeOf(Middle(r), '\n');
    SplitEachPlain(Middle(r), '\n');
  }
}
