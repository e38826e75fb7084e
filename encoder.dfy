/** Text to Morse conversion: upper-case the text, look every character up in
    the table (a character without an entry gives the empty code) and join the
    per-character codes with one space. */
module Encoder {
  import opened MorseTable

  /** ASCII upper-casing of one character; every other character is kept.
      The result is never a lower-case letter, it is a capital exactly when the
      character is a letter of either case, and only lower-case letters move. */
  function Upper(c: char): (u: char)
    ensures !('a' <= u <= 'z')
    ensures 'A' <= u <= 'Z' <==> 'A' <= c <= 'Z' || 'a' <= c <= 'z'
    ensures u != c ==> 'a' <= c <= 'z' && u as int + 32 == c as int
  {
    if 'a' <= c <= 'z' then (c as int - 32) as char else c
  }

  /** Upper-casing of a whole text, character by character. */
  function UpperCase(text: string): (u: string)
    ensures |u| == |text|
  {
    if text == [] then [] else [Upper(text[0])] + UpperCase(text[1..])
  }

  /** The code of one (already upper-cased) character, or "" when the table has
      no entry for it. */
  function CodeFor(c: char): string
  {
    match MorseCodeMap(c)
    case Some(x) => x
    case None => ""
  }

  /** The per-character codes of a text. */
  function Codes(text: string): (codes: seq<string>)
    ensures |codes| == |text|
  {
    if text == [] then [] else [CodeFor(Upper(text[0]))] + Codes(text[1..])
  }

  /** The parts, separated by one `sep` each. */
  function Join(parts: seq<string>, sep: char): string
  {
    if |parts| == 0 then ""
    else if |parts| == 1 then parts[0]
    else parts[0] + [sep] + Join(parts[1..], sep)
  }

  /** The pieces of `s` between the occurrences of `sep`; there is always at
      least one piece. This is the reference inverse of `Join`. */
  function Split(s: string, sep: char): (pieces: seq<string>)
    ensures |pieces| >= 1
    ensures forall j | 0 <= j < |pieces| :: sep !in pieces[j]
  {
    if s == [] then [""]
    else
      var rest := Split(s[1..], sep);
      if s[0] == sep then [""] + rest
      else [[s[0]] + rest[0]] + rest[1..]
  }

  /** The number of occurrences of `c` in `s`. */
  function Count(s: string, c: char): nat
  {
    if s == [] then 0 else (if s[0] == c then 1 else 0) + Count(s[1..], c)
  }

  /** A character the converter may output. */
  predicate IsMorseSymbol(c: char) {
    c == '.' || c == '-' || c == ' ' || c == '/'
  }

  /** Every character of the text converted and the codes joined by one space. */
  function ConvertToMorse(text: string): string
  {
    Join(Codes(text), ' ')
  }

  /** Decoding of a converted text: split at the spaces and look every piece up
      in the inverse table. None when a piece is not a code of the table. */
  function DecodeMorse(morse: string): Option<string>
  {
    DecodeCodes(Split(morse, ' '))
  }

  function DecodeCodes(codes: seq<string>): Option<string>
  {
    if codes == [] then Some("")
    else match (CharOfCode(codes[0]), DecodeCodes(codes[1..]))
      case (Some(c), Some(rest)) => Some([c] + rest)
      case _ => None
  }

  /** A text all of whose characters have a table entry once upper-cased. */
  predicate AllSupported(text: string) {
    forall i | 0 <= i < |text| :: MorseCodeMap(Upper(text[i])).Some?
  }

  // ---------------------------------------------------------------------------
  // Properties of the codes

  /** No code of a character holds a space, and every code is over the output
      alphabet. */
  lemma CodeForShape(c: char)
    ensures CodeFor(c) == "" <==> MorseCodeMap(c).None?
    ensures CodeFor(c) == "/" <==> c == ' '
    ensures CodeFor(c) == "" || CodeFor(c) == "/" || IsDotDash(CodeFor(c))
    ensures ' ' !in CodeFor(c)
    ensures forall j | 0 <= j < |CodeFor(c)| :: IsMorseSymbol(CodeFor(c)[j])
  {
    TableShape(c);
  }

  /** The i-th character of the upper-cased text is the i-th character
      upper-cased. */
  lemma {:induction false} UpperCaseAt(text: string, i: nat)
    requires i < |text|
    ensures UpperCase(text)[i] == Upper(text[i])
  {
    if i > 0 {
      UpperCaseAt(text[1..], i - 1);
    }
  }

  /** The i-th code is the code of the i-th character upper-cased. */
  lemma {:induction false} CodesAt(text: string, i: nat)
    requires i < |text|
    ensures Codes(text)[i] == CodeFor(Upper(text[i]))
  {
    if i > 0 {
      CodesAt(text[1..], i - 1);
    }
  }

  lemma {:induction false} CodesAppend(a: string, b: string)
    ensures Codes(a + b) == Codes(a) + Codes(b)
  {
    if a == [] {
      assert a + b == b;
    } else {
      assert (a + b)[1..] == a[1..] + b;
      CodesAppend(a[1..], b);
    }
  }

  /** Upper-casing first changes no code. */
  lemma {:induction false} CodesOfUpperCase(text: string)
    ensures Codes(UpperCase(text)) == Codes(text)
  {
    if text != [] {
      CodesOfUpperCase(text[1..]);
    }
  }

  lemma CodesUseMorseSymbols(text: string)
    ensures forall i, j | 0 <= i < |Codes(text)| && 0 <= j < |Codes(text)[i]| :: IsMorseSymbol(Codes(text)[i][j])
    ensures forall i | 0 <= i < |Codes(text)| :: ' ' !in Codes(text)[i]
  {
    forall i | 0 <= i < |Codes(text)| ensures ' ' !in Codes(text)[i] && forall j | 0 <= j < |Codes(text)[i]| :: IsMorseSymbol(Codes(text)[i][j]) {
      CodesAt(text, i);
      CodeForShape(Upper(text[i]));
    }
  }

  // ---------------------------------------------------------------------------
  // Join and Split

  lemma {:induction false} JoinAlphabet(parts: seq<string>, sep: char)
    requires IsMorseSymbol(sep)
    requires forall i, j | 0 <= i < |parts| && 0 <= j < |parts[i]| :: IsMorseSymbol(parts[i][j])
    ensures forall k | 0 <= k < |Join(parts, sep)| :: IsMorseSymbol(Join(parts, sep)[k])
  {
    if |parts| > 1 {
      JoinAlphabet(parts[1..], sep);
      var rest := Join(parts[1..], sep);
      assert Join(parts, sep) == parts[0] + [sep] + rest;
      forall k | 0 <= k < |Join(parts, sep)| ensures IsMorseSymbol(Join(parts, sep)[k]) {
        if k < |parts[0]| {
          assert Join(parts, sep)[k] == parts[0][k];
        } else if k > |parts[0]| {
          assert Join(parts, sep)[k] == rest[k - |parts[0]| - 1];
        }
      }
    }
  }

  lemma {:induction false} CountAppend(a: string, b: string, c: char)
    ensures Count(a + b, c) == Count(a, c) + Count(b, c)
  {
    if a == [] {
      assert a + b == b;
    } else {
      assert (a + b)[1..] == a[1..] + b;
      CountAppend(a[1..], b, c);
    }
  }

  lemma {:induction false} CountAbsent(s: string, c: char)
    requires c !in s
    ensures Count(s, c) == 0
  {
    if s != [] {
      CountAbsent(s[1..], c);
    }
  }

  /** Joining n parts free of the separator inserts exactly n - 1 separators. */
  lemma {:induction false} JoinSeparatorCount(parts: seq<string>, sep: char)
    requires |parts| >= 1
    requires forall i | 0 <= i < |parts| :: sep !in parts[i]
    ensures Count(Join(parts, sep), sep) == |parts| - 1
  {
    CountAbsent(parts[0], sep);
    if |parts| > 1 {
      JoinSeparatorCount(parts[1..], sep);
      CountAppend(parts[0], [sep], sep);
      CountAppend(parts[0] + [sep], Join(parts[1..], sep), sep);
    }
  }

  /** Splitting a piece free of the separator, followed by anything. */
  lemma {:induction false} SplitPrefix(p: string, s: string, sep: char)
    requires sep !in p
    ensures Split(p + s, sep) == [p + Split(s, sep)[0]] + Split(s, sep)[1..]
  {
    var pieces := Split(s, sep);
    if p == [] {
      assert p + s == s && p + pieces[0] == pieces[0];
      assert pieces == [pieces[0]] + pieces[1..];
    } else {
      assert (p + s)[1..] == p[1..] + s;
      SplitPrefix(p[1..], s, sep);
      assert [p[0]] + (p[1..] + pieces[0]) == p + pieces[0];
    }
  }

  /** Split undoes Join when no part holds the separator. */
  lemma {:induction false} SplitJoin(parts: seq<string>, sep: char)
    requires |parts| >= 1
    requires forall i | 0 <= i < |parts| :: sep !in parts[i]
    ensures Split(Join(parts, sep), sep) == parts
  {
    if |parts| == 1 {
      SplitPrefix(parts[0], "", sep);
      assert parts[0] + "" == parts[0];
    } else {
      var rest := Join(parts[1..], sep);
      SplitJoin(parts[1..], sep);
      assert parts[0] + [sep] + rest == parts[0] + ([sep] + rest);
      SplitPrefix(parts[0], [sep] + rest, sep);
      assert ([sep] + rest)[1..] == rest;
      assert Split([sep] + rest, sep) == [""] + parts[1..];
      assert parts[0] + "" == parts[0];
      assert parts == [parts[0]] + parts[1..];
    }
  }

  lemma {:induction false} JoinAppend(a: seq<string>, b: seq<string>, sep: char)
    requires |a| >= 1 && |b| >= 1
    ensures Join(a + b, sep) == Join(a, sep) + [sep] + Join(b, sep)
  {
    if |a| == 1 {
      assert (a + b)[1..] == b;
    } else {
      assert (a + b)[1..] == a[1..] + b;
      JoinAppend(a[1..], b, sep);
    }
  }

  lemma {:induction false} DecodeCodesInverts(text: string)
    requires AllSupported(text)
    ensures DecodeCodes(Codes(text)) == Some(UpperCase(text))
  {
    if text != [] {
      assert Codes(text)[1..] == Codes(text[1..]);
      DecodeCodesInverts(text[1..]);
      CharOfCodeInverts(Upper(text[0]));
    }
  }

  // ---------------------------------------------------------------------------
  // Properties of the converter

  /** The output uses only dots, dashes, spaces and slashes. */
  lemma OutputAlphabet(text: string)
    ensures forall i | 0 <= i < |ConvertToMorse(text)| :: IsMorseSymbol(ConvertToMorse(text)[i])
  {
    CodesUseMorseSymbols(text);
    JoinAlphabet(Codes(text), ' ');
  }

  /** The empty text converts to the empty string; a text of n >= 1 characters
      converts to exactly n - 1 separating spaces, whatever its characters. */
  lemma SeparatorCount(text: string)
    ensures text == [] ==> ConvertToMorse(text) == ""
    ensures text != [] ==> Count(ConvertToMorse(text), ' ') == |text| - 1
  {
    if text != [] {
      CodesUseMorseSymbols(text);
      JoinSeparatorCount(Codes(text), ' ');
    }
  }

  /** The output splits back at its spaces into exactly the per-character codes,
      an unknown character giving an empty piece. */
  lemma SplitsIntoCodes(text: string)
    requires text != []
    ensures Split(ConvertToMorse(text), ' ') == Codes(text)
  {
    CodesUseMorseSymbols(text);
    SplitJoin(Codes(text), ' ');
  }

  /** Conversion of two non-empty texts one after the other is the two
      conversions joined by one space. */
  lemma ConvertAppend(a: string, b: string)
    requires a != [] && b != []
    ensures ConvertToMorse(a + b) == ConvertToMorse(a) + " " + ConvertToMorse(b)
  {
    CodesAppend(a, b);
    JoinAppend(Codes(a), Codes(b), ' ');
  }

  /** A space between two words becomes " / " between their conversions. */
  lemma ConvertWords(a: string, b: string)
    requires a != [] && b != []
    ensures ConvertToMorse(a + " " + b) == ConvertToMorse(a) + " / " + ConvertToMorse(b)
  {
    assert Codes(" ") == ["/"];
    ConvertAppend(a, " ");
    ConvertAppend(a + " ", b);
  }

  /** Conversion ignores the case of ASCII letters. */
  lemma ConvertIgnoresCase(text: string)
    ensures ConvertToMorse(UpperCase(text)) == ConvertToMorse(text)
  {
    CodesOfUpperCase(text);
  }

  /** Each lower-case letter converts like its upper-case form, to a non-empty
      dot/dash code. */
  lemma LetterCase(k: nat)
    requires k < 26
    ensures ConvertToMorse([('a' as int + k) as char]) == ConvertToMorse([('A' as int + k) as char])
    ensures IsDotDash(ConvertToMorse([('A' as int + k) as char]))
  {
    var upper := ('A' as int + k) as char;
    assert Upper(('a' as int + k) as char) == upper;
    TableShape(upper);
  }

  /** For texts whose characters all have table entries, conversion loses
      nothing but case: decoding gives back the upper-cased text. */
  lemma DecodeConverted(text: string)
    requires text != [] && AllSupported(text)
    ensures DecodeMorse(ConvertToMorse(text)) == Some(UpperCase(text))
  {
    SplitsIntoCodes(text);
    DecodeCodesInverts(text);
  }

  /** For such texts, two conversions agree exactly when the texts agree up to
      case. */
  lemma ConvertInjective(s: string, t: string)
    requires s != [] && t != [] && AllSupported(s) && AllSupported(t)
    ensures ConvertToMorse(s) == ConvertToMorse(t) <==> UpperCase(s) == UpperCase(t)
  {
    DecodeConverted(s);
    DecodeConverted(t);
    if UpperCase(s) == UpperCase(t) {
      ConvertIgnoresCase(s);
      ConvertIgnoresCase(t);
    }
  }

  /** Worked conversions: the empty text and a lone space. */
  lemma Examples()
    ensures ConvertToMorse("") == ""
    ensures ConvertToMorse(" ") == "/"
  {
    assert Codes(" ") == ["/"];
  }

  /** "SOS" converts to the distress signal in either case. */
  lemma SosExample()
    ensures ConvertToMorse("SOS") == "... --- ..."
    ensures ConvertToMorse("sos") == "... --- ..."
  {
    CodesOfUpperCase("sos");
    assert UpperCase("sos") == "SOS" by {
      assert UpperCase("s") == "S";
      assert UpperCase("os") == "OS";
    }
    assert Codes("SOS") == ["...", "---", "..."] by {
      assert Codes("S") == ["..."];
      assert Codes("OS") == ["---", "..."];
    }
  }

  /** A character without an entry leaves two adjacent separators. */
  lemma UnknownCharacterExample()
    ensures ConvertToMorse("a#b") == ".-  -..."
  {
    assert Codes("a#b") == [".-", "", "-..."] by {
      assert Codes("b") == ["-..."];
      assert Codes("#b") == ["", "-..."];
    }
  }
}
