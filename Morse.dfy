/** `morseToText` and its table `MORSE_CODE_DICT` (public/app.js:28-32, 249-253):
    trim, split on three spaces into words, split each word on single spaces into
    codes, look each code up with a space appended, join words with one space. */
module Morse {
  import opened Wrappers

  /** `MORSE_CODE_DICT` exactly as written, entry by entry in source order. Letters,
      the digits 1-9 and the space symbol have keys ending in a space; '-----' (for 0)
      and the punctuation keys do not. Every value is a one-character string, given
      here as that character. */
  function MorseTable(key: string): Option<char>
  {
    match key
    case ".- " => Some('A') case "-... " => Some('B') case "-.-. " => Some('C')
    case "-.. " => Some('D') case ". " => Some('E') case "..-. " => Some('F')
    case "--. " => Some('G') case ".... " => Some('H') case ".. " => Some('I')
    case ".--- " => Some('J') case "-.- " => Some('K') case ".-.. " => Some('L')
    case "-- " => Some('M') case "-. " => Some('N') case "--- " => Some('O')
    case ".--. " => Some('P') case "--.- " => Some('Q') case ".-. " => Some('R')
    case "... " => Some('S') case "- " => Some('T') case "..- " => Some('U')
    case "...- " => Some('V') case ".-- " => Some('W') case "-..- " => Some('X')
    case "-.-- " => Some('Y') case "--.. " => Some('Z')
    case ".---- " => Some('1') case "..--- " => Some('2') case "...-- " => Some('3')
    case "....- " => Some('4') case "..... " => Some('5') case "-.... " => Some('6')
    case "--... " => Some('7') case "---.. " => Some('8') case "----. " => Some('9')
    case "-----" => Some('0')
    case ".-.-.-" => Some('.') case "--..-." => Some(',') case "..--.." => Some('?')
    case "-.-.--" => Some('!') case "-....-" => Some('-') case "-..-." => Some('/')
    case ".--.-" => Some('@') case "-.--." => Some('(') case "-.--.-" => Some(')')
    case " " => Some(' ')
    case _ => None
  }

  /** White space and line terminators that `String.prototype.trim` removes. */
  predicate IsJsSpace(c: char)
  {
    c == '\t' || c == '\n' || c == '\U{B}' || c == '\U{C}' || c == '\r' || c == ' ' ||
    c == '\U{A0}' || c == '\U{1680}' || ('\U{2000}' <= c <= '\U{200A}') ||
    c == '\U{2028}' || c == '\U{2029}' || c == '\U{202F}' || c == '\U{205F}' ||
    c == '\U{3000}' || c == '\U{FEFF}'
  }

  /** `s` with its leading white space removed: a suffix of `s`. */
  function TrimStart(s: string): (r: string)
    ensures |r| <= |s| && r == s[|s| - |r|..]
    ensures forall k :: 0 <= k < |s| - |r| ==> IsJsSpace(s[k])
    ensures r != [] ==> !IsJsSpace(r[0])
  {
    if |s| > 0 && IsJsSpace(s[0]) then TrimStart(s[1..]) else s
  }

  /** `s` with its trailing white space removed: a prefix of `s`. */
  function TrimEnd(s: string): (r: string)
    ensures |r| <= |s| && r == s[..|r|]
    ensures forall k :: |r| <= k < |s| ==> IsJsSpace(s[k])
    ensures r != [] ==> !IsJsSpace(r[|r| - 1])
  {
    if |s| > 0 && IsJsSpace(s[|s| - 1]) then TrimEnd(s[..|s| - 1]) else s
  }

  /** `String.prototype.trim`. */
  function Trim(s: string): string
  {
    TrimEnd(TrimStart(s))
  }

  /** `sep` occurs in `s` starting at index `k`. */
  predicate OccursAt(s: string, sep: string, k: nat)
  {
    k + |sep| <= |s| && s[k..k + |sep|] == sep
  }

  /** The first occurrence of `sep` in `s` at or after `from` (`indexOf`). */
  function IndexOf(s: string, sep: string, from: nat): (r: Option<nat>)
    requires |sep| > 0
    ensures r.Some? ==> from <= r.value && OccursAt(s, sep, r.value)
    ensures forall k :: from <= k && (r.None? || k < r.value) ==> !OccursAt(s, sep, k)
    decreases |s| - from
  {
    if from + |sep| > |s| then None
    else if s[from..from + |sep|] == sep then Some(from)
    else IndexOf(s, sep, from + 1)
  }

  /** Concatenation of `parts` with `sep` between neighbours (`Array.prototype.join`). */
  function Join(parts: seq<string>, sep: string): string
  {
    if |parts| == 0 then ""
    else if |parts| == 1 then parts[0]
    else parts[0] + sep + Join(parts[1..], sep)
  }

  /** `String.prototype.split` with a non-empty string separator: cut at each
      occurrence found scanning left to right. Joining the parts back with the
      separator gives the input, no part contains the separator, and no
      occurrence starts inside a part that a cut ends, so each cut is the
      leftmost one. */
  function Split(s: string, sep: string): (parts: seq<string>)
    requires |sep| > 0
    ensures |parts| >= 1
    ensures Join(parts, sep) == s
    ensures forall i: nat, k: nat :: i < |parts| ==> !OccursAt(parts[i], sep, k)
    ensures forall i :: 0 <= i < |parts| - 1 ==> CleanBefore(parts[i], sep)
    decreases |s|
  {
    match IndexOf(s, sep, 0)
    case None => [s]
    case Some(i) =>
      var rest := Split(s[i + |sep|..], sep);
      assert s == s[..i] + sep + s[i + |sep|..];
      forall k: nat ensures !OccursAt(s[..i], sep, k) {
        if OccursAt(s[..i], sep, k) {
          assert s[..i][k..k + |sep|] == s[k..k + |sep|];
          assert OccursAt(s, sep, k);
        }
      }
      assert s[..i] + sep == s[..i + |sep|];
      forall k: nat | k < i ensures !OccursAt(s[..i] + sep, sep, k) {
        assert !OccursAt(s, sep, k);
        assert (s[..i] + sep)[k..k + |sep|] == s[k..k + |sep|];
      }
      [s[..i]] + rest
  }

  /** `MORSE_CODE_DICT[code + ' '] || ''`: every value in the table is non-empty,
      so a missing key is the only way to get the empty contribution. */
  function Lookup(code: string): string
  {
    match MorseTable(code + " ")
    case Some(c) => [c]
    case None => ""
  }

  /** The decoded codes of one word, concatenated. */
  function DecodeCodes(codes: seq<string>): string
  {
    if codes == [] then "" else Lookup(codes[0]) + DecodeCodes(codes[1..])
  }

  /** One word: split on single spaces, decode each code. */
  function DecodeWord(word: string): string
  {
    DecodeCodes(Split(word, " "))
  }

  /** Every word decoded. */
  function DecodeWords(words: seq<string>): (r: seq<string>)
    ensures |r| == |words|
    ensures forall i :: 0 <= i < |words| ==> r[i] == DecodeWord(words[i])
  {
    if words == [] then [] else [DecodeWord(words[0])] + DecodeWords(words[1..])
  }

  /** `morseToText`: empty input gives the empty string; otherwise the trimmed text
      is cut into words on three spaces and the decoded words are joined with one space. */
  function MorseToText(morse: string): string
  {
    if morse == "" then ""
    else Join(DecodeWords(Split(Trim(morse), "   ")), " ")
  }

  // ---------------------------------------------------------------------------
  // What the table can produce

  /** The characters a lookup can ever contribute: the letters, the digits 1-9 and
      the space. '0' and the punctuation are in the table but never reached. */
  predicate Decodable(c: char)
  {
    'A' <= c <= 'Z' || '1' <= c <= '9' || c == ' '
  }

  /** A lookup key always ends in the appended space, so only entries whose key
      ends in a space can answer. */
  lemma LookupAlphabet(code: string)
    ensures |Lookup(code)| <= 1
    ensures forall c <- Lookup(code) :: Decodable(c)
  {
    var key := code + " ";
    assert key[|key| - 1] == ' ';
  }

  /** An empty code (two spaces in a row inside a word) looks up `' '` and yields a space. */
  lemma EmptyCodeIsSpace()
    ensures Lookup("") == " "
  {
    assert "" + " " == " ";
  }

  lemma {:induction false} DecodeCodesAlphabet(codes: seq<string>)
    ensures forall c <- DecodeCodes(codes) :: Decodable(c)
  {
    if codes != [] {
      LookupAlphabet(codes[0]);
      DecodeCodesAlphabet(codes[1..]);
    }
  }

  lemma {:induction false} DecodeWordsAlphabet(words: seq<string>)
    ensures forall i, c :: 0 <= i < |DecodeWords(words)| && c in DecodeWords(words)[i] ==> Decodable(c)
  {
    if words != [] {
      DecodeCodesAlphabet(Split(words[0], " "));
      DecodeWordsAlphabet(words[1..]);
    }
  }

  lemma {:induction false} JoinAlphabet(parts: seq<string>)
    requires forall i, c :: 0 <= i < |parts| && c in parts[i] ==> Decodable(c)
    ensures forall c <- Join(parts, " ") :: Decodable(c)
  {
    if |parts| > 1 {
      JoinAlphabet(parts[1..]);
    }
  }

  /** Whatever the input, the decoded text holds only letters, the digits 1-9 and
      spaces: the entry for 0 and the punctuation entries are never reached. */
  lemma MorseAlphabet(morse: string)
    ensures forall c <- MorseToText(morse) :: Decodable(c)
    ensures '0' !in MorseToText(morse) && '.' !in MorseToText(morse) && '?' !in MorseToText(morse)
  {
    if morse != "" {
      var words := Split(Trim(morse), "   ");
      DecodeWordsAlphabet(words);
      JoinAlphabet(DecodeWords(words));
    }
  }

  // ---------------------------------------------------------------------------
  // Decoding code by code

  lemma {:induction false} DecodeCodesAppend(a: seq<string>, b: seq<string>)
    ensures DecodeCodes(a + b) == DecodeCodes(a) + DecodeCodes(b)
  {
    if a != [] {
      assert (a + b)[0] == a[0];
      assert (a + b)[1..] == a[1..] + b;
      DecodeCodesAppend(a[1..], b);
      calc {
        DecodeCodes(a + b);
        Lookup(a[0]) + DecodeCodes(a[1..] + b);
        Lookup(a[0]) + (DecodeCodes(a[1..]) + DecodeCodes(b));
        (Lookup(a[0]) + DecodeCodes(a[1..])) + DecodeCodes(b);
      }
    } else {
      assert a + b == b;
    }
  }

  /** A code missing from the table contributes nothing: the codes around it decode
      as if it were not there. */
  lemma UnknownCodeSkipped(before: seq<string>, code: string, after: seq<string>)
    requires MorseTable(code + " ").None?
    ensures DecodeCodes(before + [code] + after) == DecodeCodes(before) + DecodeCodes(after)
  {
    DecodeCodesAppend(before + [code], after);
    DecodeCodesAppend(before, [code]);
  }

  // ---------------------------------------------------------------------------
  // Splitting joined text

  /** `sep` does not occur in `s`. */
  ghost predicate NoOccurrence(s: string, sep: string)
  {
    forall k: nat :: !OccursAt(s, sep, k)
  }

  /** No occurrence of `sep` in `p + sep` starts inside `p`: a split of `p + sep + ...`
      makes its first cut right after `p`. */
  ghost predicate CleanBefore(p: string, sep: string)
  {
    forall k: nat :: k < |p| ==> !OccursAt(p + sep, sep, k)
  }

  /** Cutting `a + sep + b` when no occurrence of `sep` starts inside `a`. */
  lemma SplitAfter(a: string, sep: string, b: string)
    requires |sep| > 0 && CleanBefore(a, sep)
    ensures Split(a + sep + b, sep) == [a] + Split(b, sep)
  {
    var s := a + sep + b;
    forall k: nat | k < |a|
      ensures !OccursAt(s, sep, k)
    {
      assert s[k..k + |sep|] == (a + sep)[k..k + |sep|];
      assert !OccursAt(a + sep, sep, k);
    }
    assert s[|a|..|a| + |sep|] == sep;
    assert OccursAt(s, sep, |a|);
    assert IndexOf(s, sep, 0) == Some(|a|);
    assert s[..|a|] == a;
    assert s[|a| + |sep|..] == b;
  }

  /** Splitting undoes joining when no part lets a separator be found early. */
  lemma {:induction false} SplitJoin(parts: seq<string>, sep: string)
    requires |sep| > 0 && |parts| >= 1
    requires forall i :: 0 <= i < |parts| - 1 ==> CleanBefore(parts[i], sep)
    requires NoOccurrence(parts[|parts| - 1], sep)
    ensures Split(Join(parts, sep), sep) == parts
  {
    if |parts| == 1 {
      assert IndexOf(parts[0], sep, 0) == None;
    } else {
      SplitAfter(parts[0], sep, Join(parts[1..], sep));
      SplitJoin(parts[1..], sep);
      assert parts == [parts[0]] + parts[1..];
    }
  }

  /** A code made of dots and dashes only. */
  predicate IsCode(code: string)
  {
    |code| > 0 && forall k :: 0 <= k < |code| ==> code[k] == '.' || code[k] == '-'
  }

  /** A well-formed word: dots and dashes, codes separated by single spaces, no
      space at either end. */
  predicate IsMorseWord(w: string)
  {
    && |w| > 0 && w[0] != ' ' && w[|w| - 1] != ' '
    && (forall k :: 0 <= k < |w| ==> w[k] == '.' || w[k] == '-' || w[k] == ' ')
    && (forall k :: 0 <= k < |w| - 1 ==> w[k] != ' ' || w[k + 1] != ' ')
  }

  lemma CodeHasNoSpace(code: string)
    requires IsCode(code)
    ensures CleanBefore(code, " ") && NoOccurrence(code, " ")
  {
    forall k: nat | k < |code|
      ensures !OccursAt(code + " ", " ", k)
    {
      assert (code + " ")[k..k + 1][0] == code[k];
    }
    forall k: nat | k < |code|
      ensures !OccursAt(code, " ", k)
    {
      assert code[k..k + 1][0] == code[k];
    }
  }

  /** A word of codes joined by single spaces decodes code by code. */
  lemma DecodeWordCodes(codes: seq<string>)
    requires |codes| >= 1 && forall i :: 0 <= i < |codes| ==> IsCode(codes[i])
    ensures DecodeWord(Join(codes, " ")) == DecodeCodes(codes)
  {
    forall i | 0 <= i < |codes|
      ensures CleanBefore(codes[i], " ") && NoOccurrence(codes[i], " ")
    {
      CodeHasNoSpace(codes[i]);
    }
    SplitJoin(codes, " ");
  }

  lemma {:induction false} JoinEnds(parts: seq<string>, sep: string)
    requires |parts| >= 1 && forall i :: 0 <= i < |parts| ==> |parts[i]| > 0
    ensures |Join(parts, sep)| > 0
    ensures Join(parts, sep)[0] == parts[0][0]
    ensures Join(parts, sep)[|Join(parts, sep)| - 1] == parts[|parts| - 1][|parts[|parts| - 1]| - 1]
  {
    if |parts| > 1 {
      JoinEnds(parts[1..], sep);
    }
  }

  /** Codes joined by single spaces form a well-formed word. */
  lemma {:induction false} JoinCodesIsWord(codes: seq<string>)
    requires |codes| >= 1 && forall i :: 0 <= i < |codes| ==> IsCode(codes[i])
    ensures IsMorseWord(Join(codes, " "))
  {
    JoinEnds(codes, " ");
    if |codes| > 1 {
      JoinCodesIsWord(codes[1..]);
      var c, rest := codes[0], Join(codes[1..], " ");
      var w := c + " " + rest;
      assert Join(codes, " ") == w;
      forall k | 0 <= k < |w| - 1
        ensures w[k] != ' ' || w[k + 1] != ' '
      {
        if k >= |c| + 1 {
          assert w[k] == rest[k - |c| - 1];
          assert w[k + 1] == rest[k - |c|];
        }
      }
    }
  }

  /** In a well-formed word three spaces never occur, not even running into a
      following separator. */
  lemma NoWordSeparatorIn(w: string)
    requires IsMorseWord(w)
    ensures CleanBefore(w, "   ") && NoOccurrence(w, "   ")
  {
    forall k: nat | k < |w|
      ensures !OccursAt(w + "   ", "   ", k)
    {
      assert (w + "   ")[k] == w[k];
      if k + 1 < |w| {
        assert (w + "   ")[k + 1] == w[k + 1];
      }
    }
    forall k: nat | k + 3 <= |w|
      ensures !OccursAt(w, "   ", k)
    {
      assert w[k..k + 3][0] == w[k] && w[k..k + 3][1] == w[k + 1];
    }
  }

  /** Trimming leaves text that starts and ends with a dot or a dash unchanged. */
  lemma TrimCode(s: string)
    requires |s| > 0 && (s[0] == '.' || s[0] == '-') && (s[|s| - 1] == '.' || s[|s| - 1] == '-')
    ensures Trim(s) == s
  {
    assert !IsJsSpace(s[0]) && !IsJsSpace(s[|s| - 1]);
    assert TrimStart(s) == s;
    assert TrimEnd(s) == s;
  }

  /** A well-formed word starts and ends with a dot or a dash. */
  lemma WordEnds(w: string)
    requires IsMorseWord(w)
    ensures |w| > 0 && (w[0] == '.' || w[0] == '-') && (w[|w| - 1] == '.' || w[|w| - 1] == '-')
  {
  }

  /** A sentence of well-formed words starts and ends with a dot or a dash. */
  lemma SentenceEnds(words: seq<string>)
    requires |words| >= 1 && forall i :: 0 <= i < |words| ==> IsMorseWord(words[i])
    ensures var s := Join(words, "   ");
      |s| > 0 && (s[0] == '.' || s[0] == '-') && (s[|s| - 1] == '.' || s[|s| - 1] == '-')
  {
    forall i | 0 <= i < |words|
      ensures |words[i]| > 0
    {
      WordEnds(words[i]);
    }
    WordEnds(words[0]);
    WordEnds(words[|words| - 1]);
    JoinEnds(words, "   ");
  }

  /** A sentence of well-formed words is not empty and trimming leaves it alone. */
  lemma TrimSentence(words: seq<string>)
    requires |words| >= 1 && forall i :: 0 <= i < |words| ==> IsMorseWord(words[i])
    ensures Join(words, "   ") != "" && Trim(Join(words, "   ")) == Join(words, "   ")
  {
    var s := Join(words, "   ");
    SentenceEnds(words);
    assert |s| > 0 && (s[0] == '.' || s[0] == '-') && (s[|s| - 1] == '.' || s[|s| - 1] == '-');
    TrimCode(s);
  }

  /** Cutting a sentence on three spaces gives back its words. */
  lemma SplitSentence(words: seq<string>)
    requires |words| >= 1 && forall i :: 0 <= i < |words| ==> IsMorseWord(words[i])
    ensures Split(Join(words, "   "), "   ") == words
  {
    forall i | 0 <= i < |words|
      ensures CleanBefore(words[i], "   ") && NoOccurrence(words[i], "   ")
    {
      NoWordSeparatorIn(words[i]);
    }
    SplitJoin(words, "   ");
  }

  /** Well-formed words separated by three spaces decode word by word, and the
      decoded words are joined with a single space. */
  lemma MorseSentence(words: seq<string>)
    requires |words| >= 1 && forall i :: 0 <= i < |words| ==> IsMorseWord(words[i])
    ensures MorseToText(Join(words, "   ")) == Join(DecodeWords(words), " ")
  {
    TrimSentence(words);
    SplitSentence(words);
  }

  lemma HolaCodes()
    ensures Join(["....", "---", ".-..", ".-"], " ") == ".... --- .-.. .-"
    ensures IsCode("....") && IsCode("---") && IsCode(".-..") && IsCode(".-")
  {
  }

  lemma HolaLookups()
    ensures DecodeCodes(["....", "---", ".-..", ".-"]) == "HOLA"
  {
    assert "...." + " " == ".... " && "---" + " " == "--- " && ".-.." + " " == ".-.. " && ".-" + " " == ".- ";
  }

  /** The example message decodes to "HOLA". */
  lemma Hola()
    ensures MorseToText(".... --- .-.. .-") == "HOLA"
  {
    var codes := ["....", "---", ".-..", ".-"];
    var w := ".... --- .-.. .-";
    HolaCodes();
    JoinCodesIsWord(codes);
    MorseSentence([w]);
    DecodeWordCodes(codes);
    HolaLookups();
  }

  lemma {:induction false} TrimStartSpace(s: string)
    ensures TrimStart(s + " ") == if TrimStart(s) == "" then "" else TrimStart(s) + " "
  {
    if |s| > 0 {
      assert (s + " ")[0] == s[0];
      assert (s + " ")[1..] == s[1..] + " ";
      if IsJsSpace(s[0]) {
        TrimStartSpace(s[1..]);
      }
    } else {
      assert TrimStart(" ") == TrimStart("");
    }
  }

  lemma TrimEndSpace(t: string)
    ensures TrimEnd(t + " ") == TrimEnd(t)
  {
    assert (t + " ")[..|t|] == t;
  }

  /** A space appended to non-empty input changes nothing: trimming removes it. */
  lemma TrailingSpaceIgnored(morse: string)
    requires morse != ""
    ensures MorseToText(morse + " ") == MorseToText(morse)
  {
    TrimStartSpace(morse);
    TrimEndSpace(TrimStart(morse));
    assert Trim(morse + " ") == Trim(morse);
  }
}
