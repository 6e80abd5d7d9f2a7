/**
 * The sanitize chain of the manual-paste path: eleven `.replace` passes that
 * turn pasted text into printable ASCII. Each single-character pass is a
 * character map; the CRLF pass looks at pairs. `Normalize` is a one-pass
 * reference definition the chain is proved equal to.
 */
module Sanitization {

  /** Replace every character `c` of `s` by `f(c)`, left to right. */
  function MapChars(s: string, f: char -> string): string
    decreases |s|
  {
    if s == [] then [] else f(s[0]) + MapChars(s[1..], f)
  }

  /** A character of the printable ASCII range 0x20..0x7E. */
  predicate IsPrintableAscii(c: char)
  {
    ' ' <= c <= '~'
  }

  predicate AllPrintable(s: string)
  {
    forall i :: 0 <= i < |s| ==> IsPrintableAscii(s[i])
  }

  /** The class `[\x00-\x08\x0B\x0C\x0E-\x1F\x7F]`: every ASCII control character except tab, LF and CR. */
  predicate IsStrippedControl(c: char)
  {
    c <= '\U{0008}' || c == '\U{000B}' || c == '\U{000C}' || ('\U{000E}' <= c <= '\U{001F}') || c == '\U{007F}'
  }

  function StripControlChar(c: char): string
  {
    if IsStrippedControl(c) then "" else [c]
  }

  function CrToSpace(c: char): string
  {
    if c == '\r' then " " else [c]
  }

  function LfToSpace(c: char): string
  {
    if c == '\n' then " " else [c]
  }

  function TabToSpace(c: char): string
  {
    if c == '\t' then " " else [c]
  }

  function SmartSingleQuote(c: char): string
  {
    if c == '\U{2018}' || c == '\U{2019}' then "'" else [c]
  }

  function SmartDoubleQuote(c: char): string
  {
    if c == '\U{201C}' || c == '\U{201D}' then "\"" else [c]
  }

  function EnDash(c: char): string
  {
    if c == '\U{2013}' then "-" else [c]
  }

  function EmDash(c: char): string
  {
    if c == '\U{2014}' then "-" else [c]
  }

  function Ellipsis(c: char): string
  {
    if c == '\U{2026}' then "..." else [c]
  }

  /** The last pass: a character outside 0x20..0x7E is dropped when its code is
      above 127 and kept otherwise. */
  function DropNonAscii(c: char): string
  {
    if !IsPrintableAscii(c) then (if c as int > 127 then "" else [c]) else [c]
  }

  /** `.replace(/\r\n/g, ' ')`: non-overlapping, left to right. */
  function ReplaceCrlf(s: string): string
    decreases |s|
  {
    if s == [] then []
    else if |s| >= 2 && s[0] == '\r' && s[1] == '\n' then " " + ReplaceCrlf(s[2..])
    else [s[0]] + ReplaceCrlf(s[1..])
  }

  /** The nine single-character passes that follow the CRLF pass, in source order. */
  function AfterCrlf(u: string): string
  {
    var a := MapChars(MapChars(MapChars(u, CrToSpace), LfToSpace), TabToSpace);
    var b := MapChars(MapChars(a, SmartSingleQuote), SmartDoubleQuote);
    var d := MapChars(MapChars(MapChars(b, EnDash), EmDash), Ellipsis);
    MapChars(d, DropNonAscii)
  }

  /** The whole chain, applied to the working string of the paste path. */
  function Sanitize(s: string): string
  {
    AfterCrlf(ReplaceCrlf(MapChars(s, StripControlChar)))
  }

  /** Reference: what the chain does to one character that is not part of a CRLF pair. */
  function CharImage(c: char): string
  {
    if c == '\r' || c == '\n' || c == '\t' then " "
    else if c == '\U{2018}' || c == '\U{2019}' then "'"
    else if c == '\U{201C}' || c == '\U{201D}' then "\""
    else if c == '\U{2013}' || c == '\U{2014}' then "-"
    else if c == '\U{2026}' then "..."
    else if c as int > 127 then ""
    else [c]
  }

  /** Reference: one left-to-right pass, a CRLF pair giving a single space. */
  function Normalize(u: string): string
    decreases |u|
  {
    if u == [] then []
    else if |u| >= 2 && u[0] == '\r' && u[1] == '\n' then " " + Normalize(u[2..])
    else CharImage(u[0]) + Normalize(u[1..])
  }

  lemma {:induction false} MapCharsAppend(a: string, b: string, f: char -> string)
    ensures MapChars(a + b, f) == MapChars(a, f) + MapChars(b, f)
    decreases |a|
  {
    if a == [] {
      assert a + b == b;
    } else {
      assert (a + b)[1..] == a[1..] + b;
      MapCharsAppend(a[1..], b, f);
    }
  }

  /** A map that fixes every character of `s` fixes `s`. */
  lemma {:induction false} MapCharsFixes(s: string, f: char -> string)
    requires forall i :: 0 <= i < |s| ==> f(s[i]) == [s[i]]
    ensures MapChars(s, f) == s
    decreases |s|
  {
    if s != [] {
      MapCharsFixes(s[1..], f);
    }
  }

  lemma AfterCrlfAppend(a: string, b: string)
    ensures AfterCrlf(a + b) == AfterCrlf(a) + AfterCrlf(b)
  {
    var x, y := a, b;
    MapCharsAppend(x, y, CrToSpace);
    x, y := MapChars(x, CrToSpace), MapChars(y, CrToSpace);
    MapCharsAppend(x, y, LfToSpace);
    x, y := MapChars(x, LfToSpace), MapChars(y, LfToSpace);
    MapCharsAppend(x, y, TabToSpace);
    x, y := MapChars(x, TabToSpace), MapChars(y, TabToSpace);
    MapCharsAppend(x, y, SmartSingleQuote);
    x, y := MapChars(x, SmartSingleQuote), MapChars(y, SmartSingleQuote);
    MapCharsAppend(x, y, SmartDoubleQuote);
    x, y := MapChars(x, SmartDoubleQuote), MapChars(y, SmartDoubleQuote);
    MapCharsAppend(x, y, EnDash);
    x, y := MapChars(x, EnDash), MapChars(y, EnDash);
    MapCharsAppend(x, y, EmDash);
    x, y := MapChars(x, EmDash), MapChars(y, EmDash);
    MapCharsAppend(x, y, Ellipsis);
    x, y := MapChars(x, Ellipsis), MapChars(y, Ellipsis);
    MapCharsAppend(x, y, DropNonAscii);
  }

  /** A map applied to a string of at most two characters. */
  lemma MapCharsShort(w: string, f: char -> string)
    requires |w| <= 2
    ensures |w| == 0 ==> MapChars(w, f) == []
    ensures |w| == 1 ==> MapChars(w, f) == f(w[0])
    ensures |w| == 2 ==> MapChars(w, f) == f(w[0]) + f(w[1])
  {
    if |w| == 2 {
      assert w[1..][1..] == [];
    }
  }

  /** The last pass keeps the three dots an ellipsis became. */
  lemma DotsKept()
    ensures MapChars("...", DropNonAscii) == "..."
  {
    var w := "...";
    assert w[1..] == "..";
    MapCharsShort(w[1..], DropNonAscii);
  }

  /** The nine passes turn one character into its image. */
  lemma AfterCrlfChar(c: char)
    ensures AfterCrlf([c]) == CharImage(c)
  {
    var c1 := if c == '\r' || c == '\n' || c == '\t' then ' ' else c;
    SpacePasses(c);
    var c2 := if c1 == '\U{2018}' || c1 == '\U{2019}' then '\'' else if c1 == '\U{201C}' || c1 == '\U{201D}' then '"' else c1;
    QuotePasses(c1);
    DashPasses(c2);
    if c2 == '\U{2026}' {
      DotsKept();
    } else {
      MapCharsShort([if c2 == '\U{2013}' || c2 == '\U{2014}' then '-' else c2], DropNonAscii);
    }
  }

  /** The carriage-return, line-feed and tab passes on one character. */
  lemma SpacePasses(c: char)
    ensures MapChars(MapChars(MapChars([c], CrToSpace), LfToSpace), TabToSpace)
      == [if c == '\r' || c == '\n' || c == '\t' then ' ' else c]
  {
    MapCharsShort([c], CrToSpace);
    MapCharsShort(CrToSpace(c), LfToSpace);
    MapCharsShort(MapChars(CrToSpace(c), LfToSpace), TabToSpace);
  }

  /** The two quote passes on one character. */
  lemma QuotePasses(c: char)
    ensures MapChars(MapChars([c], SmartSingleQuote), SmartDoubleQuote)
      == [if c == '\U{2018}' || c == '\U{2019}' then '\'' else if c == '\U{201C}' || c == '\U{201D}' then '"' else c]
  {
    MapCharsShort([c], SmartSingleQuote);
    MapCharsShort(SmartSingleQuote(c), SmartDoubleQuote);
  }

  /** The dash and ellipsis passes on one character. */
  lemma DashPasses(c: char)
    ensures MapChars(MapChars(MapChars([c], EnDash), EmDash), Ellipsis)
      == if c == '\U{2026}' then "..." else [if c == '\U{2013}' || c == '\U{2014}' then '-' else c]
  {
    MapCharsShort([c], EnDash);
    MapCharsShort(EnDash(c), EmDash);
    MapCharsShort(MapChars(EnDash(c), EmDash), Ellipsis);
  }

  /** The chain after the CRLF pass computes the one-pass reference. */
  lemma {:induction false} AfterCrlfNormalizes(u: string)
    ensures AfterCrlf(ReplaceCrlf(u)) == Normalize(u)
    decreases |u|
  {
    if u == [] {
    } else if |u| >= 2 && u[0] == '\r' && u[1] == '\n' {
      AfterCrlfNormalizes(u[2..]);
      NormalizesPairStep(u);
    } else {
      AfterCrlfNormalizes(u[1..]);
      NormalizesCharStep(u);
    }
  }

  lemma NormalizesPairStep(u: string)
    requires |u| >= 2 && u[0] == '\r' && u[1] == '\n'
    requires AfterCrlf(ReplaceCrlf(u[2..])) == Normalize(u[2..])
    ensures AfterCrlf(ReplaceCrlf(u)) == Normalize(u)
  {
    var r := ReplaceCrlf(u[2..]);
    assert ReplaceCrlf(u) == " " + r;
    AfterCrlfAppend(" ", r);
    AfterCrlfChar(' ');
    SpaceImage();
    assert Normalize(u) == " " + Normalize(u[2..]);
  }

  lemma SpaceImage()
    ensures CharImage(' ') == " "
  {
  }

  lemma NormalizesCharStep(u: string)
    requires u != [] && !(|u| >= 2 && u[0] == '\r' && u[1] == '\n')
    requires AfterCrlf(ReplaceCrlf(u[1..])) == Normalize(u[1..])
    ensures AfterCrlf(ReplaceCrlf(u)) == Normalize(u)
  {
    var r := ReplaceCrlf(u[1..]);
    assert ReplaceCrlf(u) == [u[0]] + r;
    AfterCrlfAppend([u[0]], r);
    AfterCrlfChar(u[0]);
  }

  /** The sanitize chain equals the one-pass reference applied after control stripping. */
  lemma SanitizeIsNormalize(s: string)
    ensures Sanitize(s) == Normalize(MapChars(s, StripControlChar))
  {
    AfterCrlfNormalizes(MapChars(s, StripControlChar));
  }

  lemma {:induction false} StripControlRemovesAll(s: string)
    ensures forall i :: 0 <= i < |MapChars(s, StripControlChar)| ==> !IsStrippedControl(MapChars(s, StripControlChar)[i])
    decreases |s|
  {
    if s != [] {
      StripControlRemovesAll(s[1..]);
    }
  }

  lemma {:induction false} NormalizePrintable(u: string)
    requires forall i :: 0 <= i < |u| ==> !IsStrippedControl(u[i])
    ensures AllPrintable(Normalize(u))
    decreases |u|
  {
    if u == [] {
    } else if |u| >= 2 && u[0] == '\r' && u[1] == '\n' {
      NormalizePrintable(u[2..]);
    } else {
      NormalizePrintable(u[1..]);
    }
  }

  /** Every character of a sanitized string lies in 0x20..0x7E. */
  lemma SanitizedIsPrintable(s: string)
    ensures AllPrintable(Sanitize(s))
  {
    SanitizeIsNormalize(s);
    StripControlRemovesAll(s);
    NormalizePrintable(MapChars(s, StripControlChar));
  }

  lemma {:induction false} NormalizeFixesPrintable(u: string)
    requires AllPrintable(u)
    ensures Normalize(u) == u
    decreases |u|
  {
    if u != [] {
      NormalizeFixesPrintable(u[1..]);
    }
  }

  /** Printable ASCII passes through the chain unchanged. */
  lemma SanitizeFixesPrintable(s: string)
    requires AllPrintable(s)
    ensures Sanitize(s) == s
  {
    MapCharsFixes(s, StripControlChar);
    SanitizeIsNormalize(s);
    NormalizeFixesPrintable(s);
  }

  /** Sanitizing twice is sanitizing once. */
  lemma SanitizeIdempotent(s: string)
    ensures Sanitize(Sanitize(s)) == Sanitize(s)
  {
    SanitizedIsPrintable(s);
    SanitizeFixesPrintable(Sanitize(s));
  }

  /** The per-character mapping table of the chain. */
  lemma SanitizeOneCharacter(c: char)
    ensures c == '\r' || c == '\n' || c == '\t' ==> Sanitize([c]) == " "
    ensures c == '\U{2018}' || c == '\U{2019}' ==> Sanitize([c]) == "'"
    ensures c == '\U{201C}' || c == '\U{201D}' ==> Sanitize([c]) == "\""
    ensures c == '\U{2013}' || c == '\U{2014}' ==> Sanitize([c]) == "-"
    ensures c == '\U{2026}' ==> Sanitize([c]) == "..."
    ensures IsPrintableAscii(c) ==> Sanitize([c]) == [c]
    ensures IsStrippedControl(c) ==> Sanitize([c]) == ""
    ensures c as int > 127 && c !in "\U{2018}\U{2019}\U{201C}\U{201D}\U{2013}\U{2014}\U{2026}" ==> Sanitize([c]) == ""
  {
    SanitizeIsNormalize([c]);
  }

  /** A CRLF pair becomes one space, while a lone CR followed by a lone LF in the
      other order becomes two. */
  lemma SanitizeLineBreaks()
    ensures Sanitize("\r\n") == " "
    ensures Sanitize("\n\r") == "  "
  {
    SanitizeIsNormalize("\r\n");
    SanitizeIsNormalize("\n\r");
    MapCharsShort("\r\n", StripControlChar);
    MapCharsShort("\n\r", StripControlChar);
  }

  /** Control stripping runs before the CRLF pass, so a control character between a
      CR and an LF joins them into one pair: one space, where the lone CR and the
      lone LF would have given two. */
  lemma StrippedControlJoinsCrlf()
    ensures Sanitize("\r\U{1}\n") == " "
    ensures Normalize("\r\n") == " " && Normalize("\r") + Normalize("\n") == "  "
  {
    var s := "\r\U{1}\n";
    SanitizeIsNormalize(s);
    assert MapChars(s, StripControlChar) == "\r\n" by {
      assert s == "\r\U{1}" + "\n";
      MapCharsAppend("\r\U{1}", "\n", StripControlChar);
      MapCharsShort("\r\U{1}", StripControlChar);
      MapCharsShort("\n", StripControlChar);
    }
  }
}
