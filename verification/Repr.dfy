/** Python's repr() of a text, as error messages echo a cell, and searching a text for a word. */
module Repr {
  import opened Text

  /** `word in text` */
  predicate Contains(text: string, word: string) { word <= text || (text != [] && Contains(text[1..], word)) }

  function Hex(n: nat, width: nat): string
  {
    if width == 0 then [] else Hex(n / 16, width - 1) + [HexDigit(n % 16)]
  }

  /** Which characters beyond ASCII are printed as they are is left to `printable`. */
  function ReprChar(c: char, quote: char, printable: char -> bool): string
  {
    var k := c as int;
    if c == quote || c == '\\' then ['\\', c]
    else if c == '\t' then ['\\', 't']
    else if c == '\n' then ['\\', 'n']
    else if c == '\r' then ['\\', 'r']
    else if 32 <= k <= 126 || (k >= 128 && printable(c)) then [c]
    else if k < 0x100 then ['\\', 'x'] + Hex(k, 2)
    else if k < 0x1_0000 then ['\\', 'u'] + Hex(k, 4)
    else ['\\', 'U'] + Hex(k, 8)
  }

  function ReprBody(text: string, quote: char, printable: char -> bool): string
  {
    if text == [] then [] else ReprChar(text[0], quote, printable) + ReprBody(text[1..], quote, printable)
  }

  /** Single quotes, unless the text has one and no double quote. */
  function QuoteFor(text: string): char { if '\'' in text && '"' !in text then '"' else '\'' }

  function Repr(text: string, printable: char -> bool): string
  {
    var quote := QuoteFor(text);
    [quote] + ReprBody(text, quote, printable) + [quote]
  }

  predicate PrintedAscii(text: string) { forall i | 0 <= i < |text| :: ' ' <= text[i] <= '~' && text[i] != '\\' }

  /** Printed ASCII without a backslash is echoed as it is, in single quotes, in double quotes when it holds a single
      one only, and with its single quotes escaped when it holds both. */
  lemma {:induction false} PrintedAsciiIsEchoed(text: string, printable: char -> bool)
    requires PrintedAscii(text)
    ensures '\'' !in text ==> Repr(text, printable) == ['\''] + text + ['\'']
    ensures '\'' in text && '"' !in text ==> Repr(text, printable) == ['"'] + text + ['"']
    ensures '\'' in text && '"' in text ==> Repr(text, printable)[0] == '\'' && |Repr(text, printable)| > |text| + 2
  {
    EchoedBody(text, QuoteFor(text), printable);
  }

  lemma {:induction false} EchoedBody(text: string, quote: char, printable: char -> bool)
    requires PrintedAscii(text)
    ensures quote !in text ==> ReprBody(text, quote, printable) == text
    ensures quote in text ==> |ReprBody(text, quote, printable)| > |text|
    ensures |ReprBody(text, quote, printable)| >= |text|
  {
    if text != [] {
      EchoedBody(text[1..], quote, printable);
      assert text == [text[0]] + text[1..];
    }
  }

  // ------------------------------------------------------------------ looking for "non-negative" in it

  /** The word the validator looks for. */
  const NON_NEGATIVE: string := "non-negative"

  const ON_NEGATIVE: string := "on-negative"

  /** Characters that repr leaves alone and that no escape contains but as its kind. */
  predicate Plain(c: char) { 'a' <= c <= 'z' || c == '-' }

  predicate AllPlain(word: string) { forall i | 0 <= i < |word| :: Plain(word[i]) }

  lemma WordsArePlain()
    ensures AllPlain(NON_NEGATIVE) && AllPlain(ON_NEGATIVE)
    ensures NON_NEGATIVE == ['n'] + ON_NEGATIVE
  {
  }

  lemma {:induction false} HexHasNoN(n: nat, width: nat)
    ensures 'n' !in Hex(n, width)
  {
    if width > 0 {
      HexHasNoN(n / 16, width - 1);
    }
  }

  lemma ReprCharShape(c: char, quote: char, printable: char -> bool)
    requires quote == '\'' || quote == '"'
    ensures ReprChar(c, quote, printable) != []
    ensures Plain(c) ==> ReprChar(c, quote, printable) == [c]
    ensures !Plain(c) ==> !Plain(ReprChar(c, quote, printable)[0])
    ensures !Plain(c) && c != '\n' ==> 'n' !in ReprChar(c, quote, printable)
  {
    HexHasNoN(c as int, 2);
    HexHasNoN(c as int, 4);
    HexHasNoN(c as int, 8);
  }

  lemma PrefixCons(word: string, first: char, rest: string)
    requires word != []
    ensures word <= [first] + rest <==> word[0] == first && word[1..] <= rest
  {
    var text := [first] + rest;
    if word <= text {
      assert word[0] == text[0];
      assert forall i | 0 <= i < |word| - 1 :: word[1..][i] == text[i + 1] == rest[i];
    }
    if word[0] == first && word[1..] <= rest {
      assert forall i | 0 <= i < |word| :: word[i] == text[i];
    }
  }

  lemma {:induction false} ReprKeepsPrefix(word: string, text: string, quote: char, printable: char -> bool)
    requires AllPlain(word) && (quote == '\'' || quote == '"')
    ensures word <= ReprBody(text, quote, printable) <==> word <= text
    decreases |word|
  {
    if word != [] && text != [] {
      var piece, rest := ReprChar(text[0], quote, printable), ReprBody(text[1..], quote, printable);
      ReprCharShape(text[0], quote, printable);
      assert piece + rest == [piece[0]] + (piece[1..] + rest);
      PrefixCons(word, piece[0], piece[1..] + rest);
      assert text == [text[0]] + text[1..];
      PrefixCons(word, text[0], text[1..]);
      assert Plain(word[0]);
      if Plain(text[0]) {
        assert piece[1..] + rest == rest;
        ReprKeepsPrefix(word[1..], text[1..], quote, printable);
      }
    }
  }

  /** Text that does not hold the word's first letter can be skipped. */
  lemma {:induction false} SkipWithoutN(a: string, rest: string)
    requires 'n' !in a
    ensures Contains(a + rest, NON_NEGATIVE) <==> Contains(rest, NON_NEGATIVE)
  {
    if a == [] {
      assert a + rest == rest;
    } else {
      assert (a + rest)[1..] == a[1..] + rest && (a + rest)[0] == a[0];
      SkipWithoutN(a[1..], rest);
    }
  }

  lemma SkipOne(c: char, rest: string)
    requires !(NON_NEGATIVE <= [c] + rest)
    ensures Contains([c] + rest, NON_NEGATIVE) <==> Contains(rest, NON_NEGATIVE)
  {
    assert ([c] + rest)[1..] == rest;
  }

  /** A text whose repr holds the word either holds it, or a line feed followed by all of the word but its first
      letter, because the line feed is written \n. */
  predicate EchoesNonNegative(text: string) {
    Contains(text, NON_NEGATIVE) || Contains(text, ['\n'] + ON_NEGATIVE)
  }

  lemma {:induction false} ReprContainsIff(text: string, quote: char, printable: char -> bool)
    requires quote == '\'' || quote == '"'
    ensures Contains(ReprBody(text, quote, printable), NON_NEGATIVE) <==> EchoesNonNegative(text)
  {
    if text != [] {
      var c, rest := text[0], ReprBody(text[1..], quote, printable);
      WordsArePlain();
      ReprContainsIff(text[1..], quote, printable);
      ReprCharShape(c, quote, printable);
      assert text == [c] + text[1..];
      PrefixCons(NON_NEGATIVE, c, text[1..]);
      PrefixCons(['\n'] + ON_NEGATIVE, c, text[1..]);
      assert (['\n'] + ON_NEGATIVE)[1..] == ON_NEGATIVE;
      assert NON_NEGATIVE[1..] == ON_NEGATIVE;
      if c == '\n' {
        ReprKeepsPrefix(ON_NEGATIVE, text[1..], quote, printable);
        LineFeedPiece(rest);
      } else if Plain(c) {
        ReprKeepsPrefix(NON_NEGATIVE, text, quote, printable);
        assert ([c] + rest)[1..] == rest;
      } else {
        SkipWithoutN(ReprChar(c, quote, printable), rest);
      }
    }
  }

  lemma LineFeedPiece(rest: string)
    ensures Contains(['\\', 'n'] + rest, NON_NEGATIVE) <==> ON_NEGATIVE <= rest || Contains(rest, NON_NEGATIVE)
  {
    assert ['\\', 'n'] + rest == ['\\'] + (['n'] + rest);
    WordsArePlain();
    PrefixCons(NON_NEGATIVE, '\\', ['n'] + rest);
    SkipOne('\\', ['n'] + rest);
    PrefixCons(NON_NEGATIVE, 'n', rest);
    assert NON_NEGATIVE[1..] == ON_NEGATIVE;
    assert (['n'] + rest)[1..] == rest;
  }

  /** A closing quote adds no occurrence. */
  lemma {:induction false} DropQuote(text: string, quote: char)
    requires !Plain(quote)
    ensures Contains(text + [quote], NON_NEGATIVE) <==> Contains(text, NON_NEGATIVE)
  {
    var longer := text + [quote];
    WordsArePlain();
    assert longer[|longer| - 1] == quote && NON_NEGATIVE[|NON_NEGATIVE| - 1] != quote;
    assert NON_NEGATIVE <= longer ==> forall i | 0 <= i < |NON_NEGATIVE| :: longer[i] == NON_NEGATIVE[i];
    if text == [] {
      assert longer[1..] == [];
    } else {
      assert longer[1..] == text[1..] + [quote];
      DropQuote(text[1..], quote);
    }
  }

  /** f"amount is not numeric: {value!r}" */
  function NotNumericReason(text: string, printable: char -> bool): string
  {
    "amount is not numeric: " + Repr(text, printable)
  }

  /** Exactly which texts make the reason speak of "non-negative". */
  lemma ReasonContainsIff(text: string, printable: char -> bool)
    ensures Contains(NotNumericReason(text, printable), NON_NEGATIVE) <==> EchoesNonNegative(text)
  {
    var quote := QuoteFor(text);
    var body := ReprBody(text, quote, printable);
    ReprContainsIff(text, quote, printable);
    DropQuote(body, quote);
    assert Repr(text, printable) == [quote] + (body + [quote]);
    SkipWithoutN([quote], body + [quote]);
    ReasonOpening(Repr(text, printable));
  }

  /** Up to an n that does not begin the word. */
  lemma SkipPart(a: string, rest: string)
    requires 'n' !in a && !(NON_NEGATIVE <= ['n'] + rest)
    ensures Contains(a + (['n'] + rest), NON_NEGATIVE) <==> Contains(rest, NON_NEGATIVE)
  {
    SkipOne('n', rest);
    SkipWithoutN(a, ['n'] + rest);
  }

  lemma NotTheWord(rest: string, second: char, third: char)
    requires |rest| >= 2 && rest[0] == second && rest[1] == third
    requires second != 'o' || third != 'n'
    ensures !(NON_NEGATIVE <= ['n'] + rest)
  {
    var text := ['n'] + rest;
    assert text[1] == second && text[2] == third && NON_NEGATIVE[1] == 'o' && NON_NEGATIVE[2] == 'n';
  }

  lemma ReasonOpening(shown: string)
    ensures Contains("amount is not numeric: " + shown, NON_NEGATIVE) <==> Contains(shown, NON_NEGATIVE)
  {
    var numeric := "umeric: " + shown;
    var notNumeric := "ot " + (['n'] + numeric);
    var isNotNumeric := "t is " + (['n'] + notNumeric);
    SkipWithoutN("umeric: ", shown);
    NotTheWord(numeric, 'u', 'm');
    SkipPart("ot ", numeric);
    NotTheWord(notNumeric, 'o', 't');
    SkipPart("t is ", notNumeric);
    NotTheWord(isNotNumeric, 't', ' ');
    SkipPart("amou", isNotNumeric);
    OpeningInParts(shown);
  }

  lemma OpeningInParts(shown: string)
    ensures "amount is not numeric: " + shown
            == "amou" + (['n'] + ("t is " + (['n'] + ("ot " + (['n'] + ("umeric: " + shown))))))
  {
    var opening := "amou" + ['n'] + "t is " + ['n'] + "ot " + ['n'] + "umeric: ";
    assert "amount is not numeric: " == opening;
    assert "amou" + (['n'] + ("t is " + (['n'] + ("ot " + (['n'] + ("umeric: " + shown)))))) == opening + shown;
  }
}
