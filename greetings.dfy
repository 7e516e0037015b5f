/**
 * Greeting detection and the canned-answer table
 * (`GroqClient._is_simple_greeting`, `GroqClient._get_quick_response`) and the
 * check both generation paths make before calling the remote service.
 */
module Greetings {
  import opened Wrappers
  import opened AsciiText
  import opened Messages
  import opened Slices

  /** The twelve phrases answered without a remote call. */
  const SimpleGreetings: seq<string> := [
    "hi", "hello", "hey", "how are you", "good morning",
    "good afternoon", "good evening", "what is your purpose",
    "who are you", "what can you do", "help", "what is hpcl"
  ]

  /**
   * The canned answers, one per phrase.  Their wording is not part of the
   * model; each constant below stands for the corresponding (much longer)
   * answer and, like it, is non-empty.
   */
  const QuickResponses: map<string, string> := map[
    "hi" := "Hello! I'm HPGPT, your AI assistant for HPCL.\n\nHow can I help you today?",
    "hello" := "Hi there! I'm HPGPT, ready to assist you.\n\nWhat would you like to explore?",
    "hey" := "Hey! I'm HPGPT, your dedicated HPCL AI assistant.",
    "how are you" := "I'm doing great, thank you for asking! How can I assist you?",
    "good morning" := "Good morning! I'm HPGPT, your AI assistant for HPCL.",
    "good afternoon" := "Good afternoon! I'm HPGPT, here to assist you.",
    "good evening" := "Good evening! I'm HPGPT, your HPCL AI assistant.",
    "what is your purpose" := "I'm HPGPT, an AI assistant designed for HPCL.",
    "who are you" := "I'm HPGPT, your dedicated AI assistant for HPCL.",
    "what can you do" := "Great question! Here's what I can help you with.",
    "help" := "I'm here to help! I'm HPGPT, your HPCL AI assistant.",
    "what is hpcl" := "HPCL (Hindustan Petroleum Corporation Limited)."
  ]

  /** `message.lower().strip().rstrip('!').rstrip('?').rstrip('.')` */
  function Clean(message: string): string
  {
    RStripChar(RStripChar(RStripChar(Strip(Lower(message)), '!'), '?'), '.')
  }

  /** Stripping runs of `!`, then `?`, then `.` removes a tail made of those three characters. */
  lemma {:induction false} PunctuationTail(t: string)
    ensures var c := RStripChar(RStripChar(RStripChar(t, '!'), '?'), '.');
            && |c| <= |t| && c == t[..|c|]
            && (forall k :: |c| <= k < |t| ==> t[k] == '!' || t[k] == '?' || t[k] == '.')
  {
    var a := RStripChar(t, '!');
    var b := RStripChar(a, '?');
    var c := RStripChar(b, '.');
    assert |c| <= |b| <= |a| <= |t|;
    forall k | |c| <= k < |t| ensures t[k] == '!' || t[k] == '?' || t[k] == '.' {
      if k < |b| {
        assert t[k] == a[k] == b[k] == '.';
      } else if k < |a| {
        assert t[k] == a[k] == '?';
      }
    }
    assert c == t[..|c|] by {
      assert b == t[..|b|];
    }
  }

  /**
   * The cleaned text is what is left of the lower-cased, stripped text after
   * a tail made only of `!`, `?` and `.`; it never ends in `.`.
   */
  lemma {:induction false} CleanShape(message: string)
    ensures var t := Strip(Lower(message));
            && |Clean(message)| <= |t|
            && Clean(message) == t[..|Clean(message)|]
            && (forall k :: |Clean(message)| <= k < |t| ==> t[k] == '!' || t[k] == '?' || t[k] == '.')
    ensures Clean(message) == [] || Clean(message)[|Clean(message)| - 1] != '.'
  {
    PunctuationTail(Strip(Lower(message)));
  }

  /** The cleaned text has no upper-case letter. */
  lemma {:induction false} CleanIsLowered(message: string)
    ensures forall k :: 0 <= k < |Clean(message)| ==> !IsUpper(Clean(message)[k])
  {
    var l := Lower(message);
    var t := Strip(l);
    var c := Clean(message);
    CleanShape(message);
    StripSlice(l);
    var off := |l| - |LStrip(l)|;
    forall k | 0 <= k < |c| ensures !IsUpper(c[k]) {
      assert c[k] == t[k] == l[off + k];
    }
  }

  /**
   * `re.match('^' + phrase + '$', text)` for a phrase without regex
   * metacharacters.  Python's `$` also matches right before a newline that
   * ends the string, so one trailing `\n` is accepted too.
   */
  predicate AnchoredMatch(phrase: string, text: string) {
    text == phrase || text == phrase + "\n"
  }

  /** `_is_simple_greeting`: a direct membership test, then the twelve anchored patterns. */
  predicate IsSimpleGreeting(message: string) {
    && message != ""
    && (|| Clean(message) in SimpleGreetings
        || exists phrase :: phrase in SimpleGreetings && AnchoredMatch(phrase, Clean(message)))
  }

  /** `_get_quick_response`: the table entry for the cleaned text, if any. */
  function QuickResponse(message: string): (r: Option<string>)
    ensures message == "" ==> r == None
    ensures r.Some? <==> message != "" && Clean(message) in SimpleGreetings
    ensures r.Some? ==> r.value != "" && r.value == QuickResponses[Clean(message)]
  {
    TableKeys();
    if message == "" then None
    else
      var key := Clean(message);
      if key in QuickResponses then Some(QuickResponses[key]) else None
  }

  /** The table's keys are exactly the twelve phrases and no answer is empty. */
  lemma {:induction false} TableKeys()
    ensures forall key :: key in QuickResponses <==> key in SimpleGreetings
    ensures forall key :: key in QuickResponses ==> QuickResponses[key] != ""
    ensures |SimpleGreetings| == 12
  {
  }

  /** A phrase of lower-case letters and spaces that starts and ends with a letter. */
  predicate PlainPhrase(p: string) {
    && p != []
    && IsLowerCase(p[0]) && IsLowerCase(p[|p| - 1])
    && forall i :: 0 <= i < |p| ==> IsLowerCase(p[i]) || p[i] == ' '
  }

  /** Stripping a character a text does not end in leaves the text alone. */
  lemma {:induction false} KeepsLast(s: string, c: char)
    requires s != [] && s[|s| - 1] != c
    ensures RStripChar(s, c) == s
  {
  }

  /** A plain phrase ends in a letter, so stripping a trailing non-letter leaves it alone. */
  lemma {:induction false} PlainEndsInLetter(p: string, c: char)
    requires PlainPhrase(p) && !IsLowerCase(c)
    ensures RStripChar(p, c) == p
  {
  }

  /** Plain phrases are left alone by the cleaning. */
  lemma {:induction false} CleanPlain(p: string)
    requires PlainPhrase(p)
    ensures Clean(p) == p
  {
    LowerFixed(p);
    StripFixed(p);
    PlainEndsInLetter(p, '!');
    PlainEndsInLetter(p, '?');
    PlainEndsInLetter(p, '.');
  }

  /** Every listed phrase is plain. */
  lemma {:induction false} PhrasesArePlain()
    ensures forall p :: p in SimpleGreetings ==> PlainPhrase(p)
  {
    FirstPhrasesPlain();
    LastPhrasesPlain();
    forall p | p in SimpleGreetings ensures PlainPhrase(p) {
      var i :| 0 <= i < |SimpleGreetings| && SimpleGreetings[i] == p;
    }
  }

  lemma {:induction false} FirstPhrasesPlain()
    ensures forall i :: 0 <= i < 6 ==> PlainPhrase(SimpleGreetings[i])
  {
  }

  lemma {:induction false} LastPhrasesPlain()
    ensures forall i :: 6 <= i < 12 ==> PlainPhrase(SimpleGreetings[i])
  {
  }

  /** Every table key is recognised as a greeting and finds its own answer. */
  lemma {:induction false} KeysRecognised()
    ensures forall key :: key in QuickResponses ==>
              IsSimpleGreeting(key) && QuickResponse(key) == Some(QuickResponses[key])
  {
    TableKeys();
    PhrasesArePlain();
    forall key | key in QuickResponses
      ensures IsSimpleGreeting(key) && QuickResponse(key) == Some(QuickResponses[key])
    {
      CleanPlain(key);
    }
  }

  /** Every text that has a canned answer is also detected as a greeting. */
  lemma {:induction false} QuickResponseIsGreeting(message: string)
    requires QuickResponse(message).Some?
    ensures IsSimpleGreeting(message)
  {
  }

  /**
   * Detection and lookup disagree on exactly one kind of text: one whose
   * cleaned form is a phrase followed by a single newline, which the pattern
   * pass accepts and the table does not know.
   */
  lemma {:induction false} GreetingWithoutAnswer(message: string)
    ensures (IsSimpleGreeting(message) && QuickResponse(message).None?) <==>
            (message != "" && exists phrase :: phrase in SimpleGreetings && Clean(message) == phrase + "\n")
  {
    PhrasesArePlain();
    var c := Clean(message);
    if message != "" && exists phrase :: phrase in SimpleGreetings && c == phrase + "\n" {
      var phrase :| phrase in SimpleGreetings && c == phrase + "\n";
      assert c[|c| - 1] == '\n';
    }
  }

  lemma {:induction false} LStripPadded(pad: string, s: string)
    requires forall i :: 0 <= i < |pad| ==> IsSpace(pad[i])
    ensures LStrip(pad + s) == LStrip(s)
  {
    if pad != [] {
      assert (pad + s)[1..] == pad[1..] + s;
      LStripPadded(pad[1..], s);
    } else {
      assert pad + s == s;
    }
  }

  lemma {:induction false} RStripPadded(s: string, pad: string)
    requires forall i :: 0 <= i < |pad| ==> IsSpace(pad[i])
    ensures RStrip(s + pad) == RStrip(s)
  {
    if pad != [] {
      assert (s + pad)[..|s + pad| - 1] == s + pad[..|pad| - 1];
      RStripPadded(s, pad[..|pad| - 1]);
    } else {
      assert s + pad == s;
    }
  }

  /** Upper- and lower-case spellings are cleaned, detected and answered alike. */
  lemma {:induction false} CaseIgnored(message: string)
    ensures Clean(Lower(message)) == Clean(message)
    ensures IsSimpleGreeting(Lower(message)) == IsSimpleGreeting(message)
    ensures QuickResponse(Lower(message)) == QuickResponse(message)
  {
    LowerIsLowered(message);
  }

  /**
   * Whitespace around a plain phrase is dropped, so a listed phrase with
   * outer whitespace is a greeting and gets the phrase's answer.
   */
  lemma {:induction false} PaddingIgnored(before: string, p: string, after: string)
    requires forall i :: 0 <= i < |before| ==> IsSpace(before[i])
    requires forall i :: 0 <= i < |after| ==> IsSpace(after[i])
    requires PlainPhrase(p)
    ensures Clean(before + p + after) == p
  {
    PaddedStripped(before, p, after);
    PlainEndsInLetter(p, '!');
    PlainEndsInLetter(p, '?');
    PlainEndsInLetter(p, '.');
  }

  /** `lower` and `strip` take a plain phrase with outer whitespace back to the phrase. */
  lemma {:induction false} PaddedStripped(before: string, p: string, after: string)
    requires forall i :: 0 <= i < |before| ==> IsSpace(before[i])
    requires forall i :: 0 <= i < |after| ==> IsSpace(after[i])
    requires PlainPhrase(p)
    ensures Clean(before + p + after) == RStripChar(RStripChar(RStripChar(p, '!'), '?'), '.')
  {
    var m := before + p + after;
    forall i | 0 <= i < |m| ensures !IsUpper(m[i]) {
      if i < |before| {
        assert m[i] == before[i];
      } else if i < |before| + |p| {
        assert m[i] == p[i - |before|];
      } else {
        assert m[i] == after[i - |before| - |p|];
      }
    }
    LowerFixed(m);
    assert m == before + (p + after);
    LStripPadded(before, p + after);
    RStripPadded(p, after);
    StripFixed(p);
  }

  /** A plain phrase followed by characters that are not upper-case, the last not a space, is untouched by `lower` and `strip`. */
  lemma {:induction false} PlainWithTail(p: string, tail: string)
    requires PlainPhrase(p)
    requires tail != [] && !IsSpace(tail[|tail| - 1])
    requires forall i :: 0 <= i < |tail| ==> !IsUpper(tail[i])
    ensures Clean(p + tail) == RStripChar(RStripChar(RStripChar(p + tail, '!'), '?'), '.')
  {
    var m := p + tail;
    forall i | 0 <= i < |m| ensures !IsUpper(m[i]) {
      if i < |p| {
        assert m[i] == p[i];
      } else {
        assert m[i] == tail[i - |p|];
      }
    }
    LowerFixed(m);
    assert m[|m| - 1] == tail[|tail| - 1];
    StripFixed(m);
  }

  /** The three strips in turn remove a run of one of the punctuation characters after a plain phrase. */
  lemma {:induction false} PunctuationRunStripped(p: string, tail: string, c: char)
    requires PlainPhrase(p)
    requires c == '!' || c == '?' || c == '.'
    requires tail != [] && forall i :: 0 <= i < |tail| ==> tail[i] == c
    ensures RStripChar(RStripChar(RStripChar(p + tail, '!'), '?'), '.') == p
  {
    var m := p + tail;
    RStripCharRun(p, tail, c);
    assert m[|m| - 1] == c;
    PlainEndsInLetter(p, '!');
    PlainEndsInLetter(p, '?');
    PlainEndsInLetter(p, '.');
  }

  /**
   * A run of one of `!`, `?` and `.` after a plain phrase is dropped by the
   * cleaning, so a listed phrase so ended is a greeting with that phrase's answer.
   */
  lemma {:induction false} PunctuationIgnored(p: string, tail: string, c: char)
    requires PlainPhrase(p)
    requires c == '!' || c == '?' || c == '.'
    requires forall i :: 0 <= i < |tail| ==> tail[i] == c
    ensures Clean(p + tail) == p
  {
    if tail == [] {
      assert p + tail == p;
      CleanPlain(p);
    } else {
      PlainWithTail(p, tail);
      PunctuationRunStripped(p, tail, c);
    }
  }

  /** `!` goes first, so a `.` in front of it is reached and stripped too. */
  lemma {:induction false} DotThenBang(p: string)
    requires PlainPhrase(p)
    ensures Clean(p + "." + "!") == p
  {
    PlainWithTail(p, "." + "!");
    AppendAssoc(p, ".", "!");
    DotBangStripped(p);
  }

  lemma {:induction false} DotBangStripped(p: string)
    requires PlainPhrase(p)
    ensures RStripChar(RStripChar(RStripChar(p + "." + "!", '!'), '?'), '.') == p
  {
    var d := p + ".";
    RStripCharRun(d, "!", '!');
    assert d[|d| - 1] == '.';
    KeepsLast(d, '!');
    KeepsLast(d, '?');
    RStripCharRun(p, ".", '.');
    PlainEndsInLetter(p, '.');
  }

  /** `.` goes last, so a `!` in front of it stays. */
  lemma {:induction false} BangThenDot(p: string)
    requires PlainPhrase(p)
    ensures Clean(p + "!" + ".") == p + "!"
  {
    PlainWithTail(p, "!" + ".");
    AppendAssoc(p, "!", ".");
    BangDotStripped(p);
  }

  lemma {:induction false} BangDotStripped(p: string)
    requires PlainPhrase(p)
    ensures RStripChar(RStripChar(RStripChar(p + "!" + ".", '!'), '?'), '.') == p + "!"
  {
    var b := p + "!";
    var m := b + ".";
    assert m[|m| - 1] == '.';
    KeepsLast(m, '!');
    KeepsLast(m, '?');
    RStripCharRun(b, ".", '.');
    assert b[|b| - 1] == '!';
    KeepsLast(b, '.');
  }

  /** A plain phrase, a newline and a `!`: the `!` is stripped and the newline stays. */
  lemma {:induction false} NewlineKept(p: string)
    requires PlainPhrase(p)
    ensures Clean(p + "\n" + "!") == p + "\n"
  {
    PlainWithTail(p, "\n" + "!");
    AppendAssoc(p, "\n", "!");
    BangAfterNewline(p + "\n");
  }

  /** Of the three strips, only the first acts on a text ending in a newline and a `!`. */
  lemma {:induction false} BangAfterNewline(n: string)
    requires n != [] && n[|n| - 1] == '\n'
    ensures RStripChar(RStripChar(RStripChar(n + "!", '!'), '?'), '.') == n
  {
    RStripCharRun(n, "!", '!');
    KeepsLast(n, '!');
    KeepsLast(n, '?');
    KeepsLast(n, '.');
  }

  /**
   * So every listed phrase followed by a newline and a `!` is detected as a
   * greeting and has no answer in the table.
   */
  lemma {:induction false} NewlineGreeting(p: string)
    requires p in SimpleGreetings
    ensures IsSimpleGreeting(p + "\n" + "!") && QuickResponse(p + "\n" + "!") == None
  {
    PhrasesArePlain();
    NewlineKept(p);
    assert AnchoredMatch(p, p + "\n");
    GreetingWithoutAnswer(p + "\n" + "!");
  }

  /** A plain phrase that is not one of the twelve is no greeting. */
  lemma {:induction false} UnlistedIsNoGreeting(message: string)
    requires PlainPhrase(message) && message !in SimpleGreetings
    ensures !IsSimpleGreeting(message)
  {
    var c := Clean(message);
    CleanPlain(message);
    assert c !in SimpleGreetings;
    assert c[|c| - 1] != '\n';
    forall phrase | phrase in SimpleGreetings ensures !AnchoredMatch(phrase, c) {
      assert (phrase + "\n")[|phrase|] == '\n';
    }
  }

  /** Extra words do: matching is exact, not by prefix. */
  lemma {:induction false} NotGreetingLonger(message: string)
    requires message == "hi there"
    ensures !IsSimpleGreeting(message)
  {
    assert PlainPhrase(message);
    assert message !in SimpleGreetings;
    UnlistedIsNoGreeting(message);
  }

  /** The `content` of the last converted turn, `groq_messages[-1].get('content', '')`. */
  function LastContent(converted: seq<Dict>): string
    requires converted != []
  {
    Get(converted[|converted| - 1], "content", "")
  }

  /**
   * The check both generation paths make: at least two turns, the last
   * turn's content detected as a greeting and a non-empty canned answer for it.
   */
  function CannedAnswer(converted: seq<Dict>): (r: Option<string>)
    ensures r.Some? <==> |converted| >= 2 && QuickResponse(LastContent(converted)).Some?
    ensures r.Some? ==> r == QuickResponse(LastContent(converted)) && r.value != ""
  {
    if |converted| >= 2 then
      var last := LastContent(converted);
      if IsSimpleGreeting(last) then
        match QuickResponse(last)
        case Some(answer) => if answer != "" then Some(answer) else None
        case None => None
      else None
    else None
  }

  /** The check as both generation methods write it, step by step. */
  method DetectCanned(converted: seq<Dict>) returns (answer: Option<string>)
    ensures answer == CannedAnswer(converted)
  {
    answer := None;
    if |converted| >= 2 {
      var lastUserMessage := Get(converted[|converted| - 1], "content", "");
      assert LastContent(converted) == lastUserMessage;
      if IsSimpleGreeting(lastUserMessage) {
        var quickResponse := QuickResponse(lastUserMessage);
        if quickResponse.Some? && quickResponse.value != "" {
          answer := quickResponse;
        }
      }
    }
  }
}
