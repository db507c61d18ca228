/**
 * The browser extractor's repair pass: raw line breaks inside double-quoted
 * string literals become the two characters `\` `n`, since section 7 of
 * RFC 8259 forbids unescaped control characters in JSON strings.
 *
 * `Scan` is the pass as the application writes it: an in-string flag that
 * flips on every `"` whose preceding source character is not a backslash.
 * `ScanJson` is the corrected pass recorded under Findings: it tracks string
 * literals the way a JSON lexer does, where a backslash escapes exactly the
 * next character.
 */
module NewlineRepair {
  import opened Base

  predicate IsLineBreak(c: char)
  {
    c == '\n' || c == '\r'
  }

  /** The flag after reading `c`: it flips on a quote not preceded by a backslash. */
  function NextInString(c: char, inString: bool, prevBackslash: bool): bool
  {
    if c == '"' && !prevBackslash then !inString else inString
  }

  /** What the pass emits for `c` once the flag reads `st`. */
  function Emit(c: char, st: bool): string
  {
    if st && IsLineBreak(c) then "\\n" else [c]
  }

  /** The repair as written, from a state of the scan: the in-string flag and
      whether the previous source character was a backslash. */
  function Scan(s: string, inString: bool, prevBackslash: bool): string
    decreases |s|
  {
    if s == [] then []
    else
      var st := NextInString(s[0], inString, prevBackslash);
      Emit(s[0], st) + Scan(s[1..], st, s[0] == '\\')
  }

  /** The repair pass of the browser extractor, started outside any string. */
  function Repair(s: string): (r: string)
    ensures Clean(r, false, false)
  {
    ScanCleans(s, false, false);
    Scan(s, false, false)
  }

  /** Under the same flag tracking, no raw line break sits inside a string. */
  predicate Clean(s: string, inString: bool, prevBackslash: bool)
    decreases |s|
  {
    s == []
    || (var st := NextInString(s[0], inString, prevBackslash);
        !(st && IsLineBreak(s[0])) && Clean(s[1..], st, s[0] == '\\'))
  }

  /** The characters the flag tracking places outside strings, in order. */
  function Outside(s: string, inString: bool, prevBackslash: bool): string
    decreases |s|
  {
    if s == [] then []
    else
      var st := NextInString(s[0], inString, prevBackslash);
      (if st then [] else [s[0]]) + Outside(s[1..], st, s[0] == '\\')
  }

  /** The characters the flag tracking places inside strings, in order. */
  function Inside(s: string, inString: bool, prevBackslash: bool): string
    decreases |s|
  {
    if s == [] then []
    else
      var st := NextInString(s[0], inString, prevBackslash);
      (if st then [s[0]] else []) + Inside(s[1..], st, s[0] == '\\')
  }

  /** Every line break replaced by `\` `n`. */
  function EscapeLineBreaks(s: string): string
  {
    if s == [] then [] else (if IsLineBreak(s[0]) then "\\n" else [s[0]]) + EscapeLineBreaks(s[1..])
  }

  /**
   * The loop of the browser extractor: `out`, `inString` and `prev` as in the
   * application, `prev` holding the previous source character as a string.
   */
  method RepairLoop(src: string) returns (out: string)
    ensures out == Repair(src)
  {
    out := "";
    var inString := false;
    var prev := "";
    var i := 0;
    while i < |src|
      invariant 0 <= i <= |src|
      invariant prev == (if i == 0 then "" else [src[i - 1]])
      invariant out + Scan(src[i..], inString, i > 0 && src[i - 1] == '\\') == Repair(src)
    {
      var ch := src[i];
      var st := NextInString(ch, inString, i > 0 && src[i - 1] == '\\');
      var rest := Scan(src[i + 1..], st, ch == '\\');
      assert (prev == "\\") == (i > 0 && src[i - 1] == '\\');
      assert src[i..][0] == ch && src[i..][1..] == src[i + 1..];
      assert Scan(src[i..], inString, i > 0 && src[i - 1] == '\\') == Emit(ch, st) + rest;
      if ch == '"' && prev != "\\" {
        inString := !inString;
      }
      var piece;
      if inString && (ch == '\n' || ch == '\r') {
        piece := "\\n";
      } else {
        piece := [ch];
      }
      assert piece == Emit(ch, st);
      ConcatAssoc(out, piece, rest);
      out := out + piece;
      prev := [ch];
      i := i + 1;
    }
    assert src[i..] == [];
  }

  // ---------------------------------------------------------------------------
  // Properties of the repair as written

  /** After the repair no raw line break is left inside a string, judged by the
      same flag tracking. */
  lemma {:induction false} ScanCleans(s: string, inString: bool, prevBackslash: bool)
    ensures Clean(Scan(s, inString, prevBackslash), inString, prevBackslash)
    decreases |s|
  {
    if s != [] {
      var st := NextInString(s[0], inString, prevBackslash);
      var rest := Scan(s[1..], st, s[0] == '\\');
      ScanCleans(s[1..], st, s[0] == '\\');
      if st && IsLineBreak(s[0]) {
        var t := "\\n" + rest;
        assert t[1..] == "n" + rest && t[1..][1..] == rest;
        assert Clean(t[1..][1..], st, false);
      } else {
        assert ([s[0]] + rest)[1..] == rest;
      }
    }
  }

  /** Text that is already clean passes through unchanged. */
  lemma {:induction false} ScanIdentity(s: string, inString: bool, prevBackslash: bool)
    requires Clean(s, inString, prevBackslash)
    ensures Scan(s, inString, prevBackslash) == s
    decreases |s|
  {
    if s != [] {
      var st := NextInString(s[0], inString, prevBackslash);
      assert Emit(s[0], st) == [s[0]];
      ScanIdentity(s[1..], st, s[0] == '\\');
      assert s == [s[0]] + s[1..];
    }
  }

  /** The repair changes its input exactly when a raw line break sits inside a
      string, and a second repair changes nothing. */
  lemma RepairFixpoint(s: string)
    ensures Repair(s) == s <==> Clean(s, false, false)
    ensures Repair(Repair(s)) == Repair(s)
  {
    ScanCleans(s, false, false);
    if Clean(s, false, false) {
      ScanIdentity(s, false, false);
    }
    ScanIdentity(Repair(s), false, false);
  }

  /** A candidate with no `\n` or `\r` comes back unchanged. */
  lemma {:induction false} NoLineBreakIsClean(s: string, inString: bool, prevBackslash: bool)
    requires '\n' !in s && '\r' !in s
    ensures Clean(s, inString, prevBackslash)
    decreases |s|
  {
    if s != [] {
      assert s[0] in s;
      NoLineBreakIsClean(s[1..], NextInString(s[0], inString, prevBackslash), s[0] == '\\');
    }
  }

  lemma RepairWithoutLineBreaks(s: string)
    requires '\n' !in s && '\r' !in s
    ensures Repair(s) == s
  {
    NoLineBreakIsClean(s, false, false);
    ScanIdentity(s, false, false);
  }

  /** Outside strings the repair changes nothing: the output has exactly the
      input's out-of-string characters, in order. */
  lemma {:induction false} ScanKeepsOutside(s: string, inString: bool, prevBackslash: bool)
    ensures Outside(Scan(s, inString, prevBackslash), inString, prevBackslash)
         == Outside(s, inString, prevBackslash)
    decreases |s|
  {
    if s != [] {
      var st := NextInString(s[0], inString, prevBackslash);
      var rest := Scan(s[1..], st, s[0] == '\\');
      ScanKeepsOutside(s[1..], st, s[0] == '\\');
      if st && IsLineBreak(s[0]) {
        var t := "\\n" + rest;
        assert t[1..] == "n" + rest && t[1..][1..] == rest;
        assert Outside(t[1..], st, true) == Outside(rest, st, false);
      } else {
        assert ([s[0]] + rest)[1..] == rest;
      }
    }
  }

  /** Inside strings the repair does exactly one thing: it escapes each line break. */
  lemma {:induction false} ScanEscapesInside(s: string, inString: bool, prevBackslash: bool)
    ensures Inside(Scan(s, inString, prevBackslash), inString, prevBackslash)
         == EscapeLineBreaks(Inside(s, inString, prevBackslash))
    decreases |s|
  {
    if s != [] {
      var c := s[0];
      var st := NextInString(c, inString, prevBackslash);
      var rest := Scan(s[1..], st, c == '\\');
      var ins := Inside(s[1..], st, c == '\\');
      ScanEscapesInside(s[1..], st, c == '\\');
      if st && IsLineBreak(c) {
        InsideOfEscape(rest, inString, prevBackslash);
      } else {
        InsideCons(c, rest, inString, prevBackslash);
      }
      if st {
        EscapeCons(c, ins);
      } else {
        assert [] + ins == ins;
      }
    }
  }

  lemma InsideCons(c: char, rest: string, inString: bool, prevBackslash: bool)
    ensures var st := NextInString(c, inString, prevBackslash);
      Inside([c] + rest, inString, prevBackslash) == (if st then [c] else []) + Inside(rest, st, c == '\\')
  {
    assert ([c] + rest)[1..] == rest;
  }

  /** The two characters `\` `n` emitted for a line break inside a string are
      themselves inside it, and leave the flag as the line break did. */
  lemma InsideOfEscape(rest: string, inString: bool, prevBackslash: bool)
    requires inString
    ensures Inside("\\n" + rest, inString, prevBackslash) == "\\n" + Inside(rest, true, false)
  {
    var t := "\\n" + rest;
    assert t[1..] == "n" + rest && t[1..][1..] == rest;
    assert Inside(t[1..], true, true) == "n" + Inside(rest, true, false);
  }

  lemma EscapeCons(c: char, ins: string)
    ensures EscapeLineBreaks([c] + ins) == (if IsLineBreak(c) then "\\n" else [c]) + EscapeLineBreaks(ins)
  {
    assert ([c] + ins)[1..] == ins;
  }

  /** The body of a string value with no quote and no backslash, such as
      `line1` LF `line2`, comes out of the repair with each line break escaped
      and nothing else changed, under both trackings. */
  lemma {:induction false} StringBodyEscaped(x: string)
    requires '"' !in x && '\\' !in x
    ensures Scan(x, true, false) == EscapeLineBreaks(x)
    ensures ScanJson(x, true, false) == EscapeLineBreaks(x)
    decreases |x|
  {
    if x != [] {
      assert x[0] in x;
      assert x == [x[0]] + x[1..];
      StringBodyEscaped(x[1..]);
    }
  }

  /** The repair neither adds nor removes a double quote. */
  lemma {:induction false} ScanKeepsQuotes(s: string, inString: bool, prevBackslash: bool)
    ensures Count(Scan(s, inString, prevBackslash), '"') == Count(s, '"')
    decreases |s|
  {
    if s != [] {
      var st := NextInString(s[0], inString, prevBackslash);
      var rest := Scan(s[1..], st, s[0] == '\\');
      ScanKeepsQuotes(s[1..], st, s[0] == '\\');
      CountAppend(if st && IsLineBreak(s[0]) then "\\n" else [s[0]], rest, '"');
    }
  }

  // ---------------------------------------------------------------------------
  // The corrected repair

  /**
   * The repair with JSON's own string tracking: outside a string a quote opens
   * one; inside, a backslash escapes the next character and an unescaped quote
   * closes the string. Raw line breaks inside a string are escaped as before.
   */
  function ScanJson(s: string, inString: bool, escaped: bool): string
    decreases |s|
  {
    if s == [] then []
    else
      var c := s[0];
      if !inString then [c] + ScanJson(s[1..], c == '"', false)
      else if IsLineBreak(c) then "\\n" + ScanJson(s[1..], true, false)
      else if escaped then [c] + ScanJson(s[1..], true, false)
      else if c == '\\' then [c] + ScanJson(s[1..], true, true)
      else if c == '"' then [c] + ScanJson(s[1..], false, false)
      else [c] + ScanJson(s[1..], true, false)
  }

  function RepairJson(s: string): (r: string)
    ensures JsonClean(r, false, false)
  {
    ScanJsonCleans(s, false, false);
    ScanJson(s, false, false)
  }

  /** No raw line break inside a JSON string literal, judged as a JSON lexer does. */
  predicate JsonClean(s: string, inString: bool, escaped: bool)
    decreases |s|
  {
    if s == [] then true
    else
      var c := s[0];
      if !inString then JsonClean(s[1..], c == '"', false)
      else if IsLineBreak(c) then false
      else if escaped then JsonClean(s[1..], true, false)
      else if c == '\\' then JsonClean(s[1..], true, true)
      else if c == '"' then JsonClean(s[1..], false, false)
      else JsonClean(s[1..], true, false)
  }

  /** The corrected repair leaves no raw line break inside any JSON string literal. */
  lemma {:induction false} ScanJsonCleans(s: string, inString: bool, escaped: bool)
    ensures JsonClean(ScanJson(s, inString, escaped), inString, escaped)
    decreases |s|
  {
    if s != [] {
      var c := s[0];
      if !inString {
        ScanJsonCleans(s[1..], c == '"', false);
        assert ([c] + ScanJson(s[1..], c == '"', false))[1..] == ScanJson(s[1..], c == '"', false);
      } else if IsLineBreak(c) {
        var rest := ScanJson(s[1..], true, false);
        ScanJsonCleans(s[1..], true, false);
        var t := "\\n" + rest;
        assert t[1..] == "n" + rest && t[1..][1..] == rest;
        assert JsonClean(t[1..], true, true);
      } else {
        var st := if escaped then true else c != '"';
        var esc := !escaped && c == '\\';
        ScanJsonCleans(s[1..], st, esc);
        assert ([c] + ScanJson(s[1..], st, esc))[1..] == ScanJson(s[1..], st, esc);
      }
    }
  }

  /** Without backslashes the two trackings agree, so the correction only matters
      when a backslash is present. */
  lemma {:induction false} ScanJsonAgrees(s: string, inString: bool)
    requires '\\' !in s
    ensures ScanJson(s, inString, false) == Scan(s, inString, false)
    decreases |s|
  {
    if s != [] {
      assert s[0] in s;
      ScanJsonAgrees(s[1..], NextInString(s[0], inString, false));
    }
  }

  lemma RepairJsonWithoutLineBreaks(s: string)
    requires '\n' !in s && '\r' !in s
    ensures RepairJson(s) == s
  {
    ScanJsonIdentity(s, false, false);
  }

  lemma {:induction false} ScanJsonIdentity(s: string, inString: bool, escaped: bool)
    requires '\n' !in s && '\r' !in s
    ensures ScanJson(s, inString, escaped) == s
    decreases |s|
  {
    if s != [] {
      assert s[0] in s;
      var c := s[0];
      var st := if !inString then c == '"' else if escaped then true else c != '"';
      var esc := inString && !escaped && c == '\\';
      ScanJsonIdentity(s[1..], st, esc);
    }
  }

  // ---------------------------------------------------------------------------
  // The finding

  /** `{"a":"x\\","b":"l` LF `b"}`: the string "x\\" ends in an escaped backslash,
      so its closing quote follows a backslash and does not flip the flag. From
      there the flag is inverted, and the line break inside "l…b" is left raw. */
  const EscapedBackslashSample: string := "{\"a\":\"x\\\\\",\"b\":\"l\nb\"}"

  /** The repair as written leaves a raw line break inside a JSON string of the
      sample, where the corrected repair escapes it. */
  lemma RepairMissesBreakAfterEscapedBackslash()
    ensures '\n' in Repair(EscapedBackslashSample)
    ensures !JsonClean(Repair(EscapedBackslashSample), false, false)
    ensures JsonClean(RepairJson(EscapedBackslashSample), false, false)
  {
    var s := EscapedBackslashSample;
    assert IsSample(s);
    ScanJsonCleans(s, false, false);
    SampleScan(s);
    SampleNotClean(s);
  }

  /** The sample, character by character. */
  predicate IsSample(s: string)
  {
    |s| == 21 && s[0] == '{' && s[1] == '"' && s[2] == 'a' && s[3] == '"' && s[4] == ':' && s[5] == '"' && s[6] == 'x' && s[7] == '\\' && s[8] == '\\' && s[9] == '"' && s[10] == ',' && s[11] == '"' && s[12] == 'b' && s[13] == '"' && s[14] == ':' && s[15] == '"' && s[16] == 'l' && s[17] == '\n' && s[18] == 'b' && s[19] == '"' && s[20] == '}'
  }

  lemma SampleScan(s: string)
    requires IsSample(s)
    ensures Repair(s) == s
  {
    assert Clean(s[20..], true, false);
    assert Clean(s[19..], false, false);
    assert Clean(s[18..], false, false);
    assert Clean(s[17..], false, false);
    assert Clean(s[16..], false, false);
    assert Clean(s[15..], true, false);
    assert Clean(s[14..], true, false);
    assert Clean(s[13..], false, false);
    assert Clean(s[12..], false, false);
    assert Clean(s[11..], true, false);
    assert Clean(s[10..], true, false);
    assert Clean(s[9..], true, true);
    assert Clean(s[8..], true, true);
    assert Clean(s[7..], true, false);
    assert Clean(s[6..], true, false);
    assert Clean(s[5..], false, false);
    assert Clean(s[4..], false, false);
    assert Clean(s[3..], true, false);
    assert Clean(s[2..], true, false);
    assert Clean(s[1..], false, false);
    assert Clean(s, false, false);
    ScanIdentity(s, false, false);
  }

  lemma SampleNotClean(s: string)
    requires IsSample(s)
    ensures '\n' in s
    ensures !JsonClean(s, false, false)
  {
    assert s[17] == '\n';
    assert !JsonClean(s[17..], true, false);
    assert !JsonClean(s[16..], true, false);
    assert !JsonClean(s[15..], false, false);
    assert !JsonClean(s[14..], false, false);
    assert !JsonClean(s[13..], true, false);
    assert !JsonClean(s[12..], true, false);
    assert !JsonClean(s[11..], false, false);
    assert !JsonClean(s[10..], false, false);
    assert !JsonClean(s[9..], true, false);
    assert !JsonClean(s[8..], true, true);
    assert !JsonClean(s[7..], true, false);
    assert !JsonClean(s[6..], true, false);
    assert !JsonClean(s[5..], false, false);
    assert !JsonClean(s[4..], false, false);
    assert !JsonClean(s[3..], true, false);
    assert !JsonClean(s[2..], true, false);
    assert !JsonClean(s[1..], false, false);
  }
}
