/**
 * Text-level pieces of the sitemap writers: `htmlspecialchars` with the
 * decoding that undoes it, `number_format($p, 1)` for priorities with the
 * parse that reads it back, one-element-per-line XML fields, and text made
 * of lines that each end in a newline.
 */
module XmlText {
  import opened Wrappers
  import opened Text

  // ---------------------------------------------------------------------------
  // Entity escaping
  // ---------------------------------------------------------------------------

  /** The characters `htmlspecialchars` replaces by default. */
  predicate Special(c: char) {
    c == '&' || c == '<' || c == '>' || c == '"' || c == '\''
  }

  /** One character as `htmlspecialchars` (quotes included) writes it. */
  function EscapeChar(c: char): (r: string)
    ensures |r| >= 1
    ensures forall i :: 0 <= i < |r| ==> r[i] != '<' && r[i] != '>' && r[i] != '"' && r[i] != '\''
    ensures !Special(c) ==> r == [c]
    ensures '\n' in r <==> c == '\n'
  {
    if c == '&' then "&amp;"
    else if c == '<' then "&lt;"
    else if c == '>' then "&gt;"
    else if c == '"' then "&quot;"
    else if c == '\'' then "&#039;"
    else [c]
  }

  /** `htmlspecialchars`: the escaped text has no raw `<`, `>` or quote, and gains no newline. */
  function Escape(s: string): (r: string)
    ensures forall i :: 0 <= i < |r| ==> r[i] != '<' && r[i] != '>' && r[i] != '"' && r[i] != '\''
    ensures '\n' in r <==> '\n' in s
    decreases |s|
  {
    if |s| == 0 then ""
    else
      var r := EscapeChar(s[0]) + Escape(s[1..]);
      assert s == [s[0]] + s[1..];
      r
  }

  /** `htmlspecialchars_decode` for the five entities `Escape` writes. */
  function Unescape(s: string): string
    decreases |s|
  {
    if |s| == 0 then ""
    else if "&amp;" <= s then "&" + Unescape(s[5..])
    else if "&lt;" <= s then "<" + Unescape(s[4..])
    else if "&gt;" <= s then ">" + Unescape(s[4..])
    else if "&quot;" <= s then "\"" + Unescape(s[6..])
    else if "&#039;" <= s then "'" + Unescape(s[6..])
    else [s[0]] + Unescape(s[1..])
  }

  lemma UnescapeChar(c: char, t: string)
    ensures Unescape(EscapeChar(c) + t) == [c] + Unescape(t)
  {
    var e := EscapeChar(c);
    var s := e + t;
    assert s[..|e|] == e && s[|e|..] == t;
    if c == '&' {
      assert "&amp;" <= s;
    } else if c == '<' {
      assert s[1] == 'l';
      assert "&lt;" <= s;
    } else if c == '>' {
      assert s[1] == 'g';
      assert "&gt;" <= s;
    } else if c == '"' {
      assert s[1] == 'q';
      assert "&quot;" <= s;
    } else if c == '\'' {
      assert s[1] == '#';
      assert "&#039;" <= s;
    } else {
      assert s[0] == c && s[1..] == t;
    }
  }

  /** Decoding the escaped text gives the original text back. */
  lemma {:induction false} UnescapeEscape(s: string)
    ensures Unescape(Escape(s)) == s
    decreases |s|
  {
    if |s| > 0 {
      UnescapeChar(s[0], Escape(s[1..]));
      UnescapeEscape(s[1..]);
      assert s == [s[0]] + s[1..];
    }
  }

  /** Text without any of the five characters is written unchanged. */
  lemma {:induction false} EscapePlain(s: string)
    requires forall i :: 0 <= i < |s| ==> !Special(s[i])
    ensures Escape(s) == s
    decreases |s|
  {
    if |s| > 0 {
      EscapePlain(s[1..]);
      assert s == [s[0]] + s[1..];
    }
  }

  // ---------------------------------------------------------------------------
  // Priorities: number_format($p, 1)
  // ---------------------------------------------------------------------------

  /** The digits with a comma before every group of three counted from the right. */
  function Group(ds: string): (r: string)
    ensures |r| >= |ds|
    ensures '.' !in ds ==> '.' !in r
    ensures '\n' !in ds ==> '\n' !in r
    decreases |ds|
  {
    if |ds| <= 3 then ds else Group(ds[..|ds| - 3]) + "," + ds[|ds| - 3..]
  }

  /** The text with its commas left out. */
  function RemoveCommas(s: string): (r: string)
    ensures ',' !in r
    decreases |s|
  {
    if |s| == 0 then "" else (if s[0] == ',' then "" else [s[0]]) + RemoveCommas(s[1..])
  }

  lemma {:induction false} RemoveCommasConcat(a: string, b: string)
    ensures RemoveCommas(a + b) == RemoveCommas(a) + RemoveCommas(b)
    decreases |a|
  {
    if |a| == 0 {
      assert a + b == b;
    } else {
      assert (a + b)[1..] == a[1..] + b;
      RemoveCommasConcat(a[1..], b);
    }
  }

  lemma {:induction false} RemoveCommasNone(s: string)
    requires ',' !in s
    ensures RemoveCommas(s) == s
    decreases |s|
  {
    if |s| > 0 {
      RemoveCommasNone(s[1..]);
      assert s == [s[0]] + s[1..];
    }
  }

  /** Leaving out the group separators gives the digits back. */
  lemma {:induction false} UngroupGroup(ds: string)
    requires AllDigits(ds)
    ensures RemoveCommas(Group(ds)) == ds
    decreases |ds|
  {
    if |ds| <= 3 {
      RemoveCommasNone(ds);
    } else {
      var hi := ds[..|ds| - 3];
      var lo := ds[|ds| - 3..];
      UngroupGroup(hi);
      RemoveCommasAround(Group(hi), hi, lo);
      assert hi + lo == ds;
    }
  }

  /** A comma between two texts disappears along with the commas inside them. */
  lemma RemoveCommasAround(g: string, hi: string, lo: string)
    requires RemoveCommas(g) == hi && ',' !in lo
    ensures RemoveCommas(g + "," + lo) == hi + lo
  {
    var gc := g + ",";
    assert RemoveCommas(gc) == hi by {
      RemoveCommasConcat(g, ",");
      CommaRemoved();
    }
    assert RemoveCommas(gc + lo) == hi + lo by {
      RemoveCommasConcat(gc, lo);
      RemoveCommasNone(lo);
    }
  }

  lemma CommaRemoved()
    ensures RemoveCommas(",") == ""
  {
    assert ","[1..] == "";
  }

  /**
   * `number_format($p, 1)` for a priority of `t` tenths: the whole part with
   * thousands separators, a point, and exactly one decimal.
   */
  function FormatPriority(t: nat): (r: string)
    ensures |r| >= 3 && r[|r| - 2] == '.' && IsDigit(r[|r| - 1])
    ensures r[..|r| - 2] == Group(NatToString(t / 10))
    ensures '\n' !in r
  {
    assert '\n' !in NatToString(t / 10) by {
      assert !IsDigit('\n');
    }
    var r := Group(NatToString(t / 10)) + "." + [DigitChar(t % 10)];
    assert r[..|r| - 2] == Group(NatToString(t / 10));
    r
  }

  /** Reading a priority back: the whole part (commas ignored), a point, one decimal digit. */
  function ParsePriority(s: string): (r: Option<nat>)
  {
    if |s| < 3 || s[|s| - 2] != '.' || !IsDigit(s[|s| - 1]) then None
    else
      var whole := RemoveCommas(s[..|s| - 2]);
      if |whole| == 0 || !AllDigits(whole) then None
      else Some(DigitsValue(whole) * 10 + DigitValue(s[|s| - 1]))
  }

  /** A written priority reads back as the same number of tenths. */
  lemma ParseFormatPriority(t: nat)
    ensures ParsePriority(FormatPriority(t)) == Some(t)
  {
    var s := FormatPriority(t);
    UngroupGroup(NatToString(t / 10));
    NatToStringRoundTrip(t / 10);
    assert s[|s| - 1] == DigitChar(t % 10);
  }

  /**
   * Priorities below 10.0 have a one-digit whole part and so no separator:
   * 0.7 is written "0.7" and 1.0 is written "1.0".
   */
  lemma FormatPrioritySmall(t: nat)
    requires t < 100
    ensures FormatPriority(t) == [DigitChar(t / 10), '.', DigitChar(t % 10)]
  {
  }

  // ---------------------------------------------------------------------------
  // Lines
  // ---------------------------------------------------------------------------

  /** The line `indent<tag>text</tag>`. */
  function FieldLine(indent: string, tag: string, text: string): string {
    indent + "<" + tag + ">" + text + "</" + tag + ">"
  }

  /** The text of a `FieldLine` with this indent and tag, or nothing when the line is not one. */
  function ReadField(line: string, indent: string, tag: string): (r: Option<string>)
  {
    var open := indent + "<" + tag + ">";
    var close := "</" + tag + ">";
    if |open| + |close| <= |line| && open <= line && line[|line| - |close|..] == close
    then Some(line[|open|..|line| - |close|])
    else None
  }

  lemma ReadFieldLine(indent: string, tag: string, text: string)
    ensures ReadField(FieldLine(indent, tag, text), indent, tag) == Some(text)
  {
    var open := indent + "<" + tag + ">";
    var close := "</" + tag + ">";
    var line := FieldLine(indent, tag, text);
    assert line == open + text + close;
    assert line[|line| - |close|..] == close;
    assert line[|open|..|line| - |close|] == text;
  }

  /** A field line is never read as a field with another tag (tags hold no `>`). */
  lemma ReadOtherField(indent: string, t1: string, t2: string, text: string)
    requires t1 != t2 && '>' !in t1 && '>' !in t2
    ensures ReadField(FieldLine(indent, t1, text), indent, t2) == None
  {
    var line := FieldLine(indent, t1, text);
    var open := indent + "<" + t2 + ">";
    var b := |indent| + 1;
    assert line == (indent + "<") + t1 + ">" + text + "</" + t1 + ">";
    if |t1| < |t2| {
      assert line[b + |t1|] == '>';
      assert open[b + |t1|] == t2[|t1|];
    } else if |t1| > |t2| {
      assert line[b + |t2|] == t1[|t2|];
      assert open[b + |t2|] == '>';
    } else {
      var i :| 0 <= i < |t1| && t1[i] != t2[i];
      assert line[b + i] == t1[i];
      assert open[b + i] == t2[i];
    }
  }

  /** A line that differs from the field prefix at some position before its end is not read. */
  lemma ReadFieldMismatch(line: string, indent: string, tag: string, i: nat)
    requires i < |line| && i < |indent| && line[i] != indent[i]
    ensures ReadField(line, indent, tag) == None
  {
    var open := indent + "<" + tag + ">";
    assert open[i] == indent[i];
  }

  /** Each line followed by a newline. */
  function Terminated(lines: seq<string>): string
    decreases |lines|
  {
    if |lines| == 0 then "" else lines[0] + "\n" + Terminated(lines[1..])
  }

  lemma {:induction false} TerminatedConcat(a: seq<string>, b: seq<string>)
    ensures Terminated(a + b) == Terminated(a) + Terminated(b)
    decreases |a|
  {
    if |a| == 0 {
      assert a + b == b;
    } else {
      assert (a + b)[1..] == a[1..] + b;
      TerminatedConcat(a[1..], b);
    }
  }

  /** Lines each ended by a newline, then a last line without one, are the lines joined by newlines. */
  lemma {:induction false} TerminatedJoin(lines: seq<string>, last: string)
    ensures Terminated(lines) + last == Join(lines + [last], '\n')
    decreases |lines|
  {
    if |lines| > 0 {
      TerminatedJoin(lines[1..], last);
      assert (lines + [last])[1..] == lines[1..] + [last];
    } else {
      assert lines + [last] == [last];
    }
  }
}
