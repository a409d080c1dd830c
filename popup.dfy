/** The extension popup: two saved lists (words and sentences) in local
    storage, the tab that selects one of them, deletion and clearing, the
    HTML escaping used when listing items, and the export of the current
    list as a tab-separated flashcard file for Anki. */
module Popup {
  import opened Wrappers
  import opened Text

  datatype Tab = Words | Sentences

  function TabName(tab: Tab): string {
    match tab
    case Words => "words"
    case Sentences => "sentences"
  }

  /** The storage key of the list a tab shows. */
  function StorageKey(tab: Tab): (key: string)
    ensures key == "memoWords" <==> tab == Words
    ensures key == "memoSentences" <==> tab == Sentences
  {
    assert |"memoWords"| != |"memoSentences"|;
    match tab
    case Words => "memoWords"
    case Sentences => "memoSentences"
  }

  /** A dictionary entry as stored and read back for export: the
      normaliser's `{pos, terms}` with string fields (the normaliser itself
      keeps whatever JSON values the endpoint sent, see `Background`). */
  datatype DictEntry = DictEntry(pos: string, terms: seq<string>)

  /** A definition group as stored and read back for export. */
  datatype DefEntry = DefEntry(pos: string, defs: seq<string>)

  /** A saved translation as the export reads it; `None` is `null`. */
  datatype StoredItem = StoredItem(
    original: string,
    translated: string,
    phonetic: Option<string>,
    dictionary: Option<seq<DictEntry>>,
    definitions: Option<seq<DefEntry>>,
    examples: Option<seq<string>>,
    url: string)

  // ---------------------------------------------------------------------
  // escapeHtml

  /** The five replacements of `escapeHtml`, `&` first. */
  function Escaped(s: string): string {
    ReplaceAll(ReplaceAll(ReplaceAll(ReplaceAll(ReplaceAll(
      s, '&', "&amp;"), '<', "&lt;"), '>', "&gt;"), '"', "&quot;"), '\'', "&#039;")
  }

  /** Each replacement removes its character and writes none of the
      characters removed before it. */
  lemma EscapedHasNoMarkup(s: string)
    ensures var r := Escaped(s); '<' !in r && '>' !in r && '"' !in r && '\'' !in r
  {
    var s1 := ReplaceAll(s, '&', "&amp;");
    var s2 := ReplaceAll(s1, '<', "&lt;");
    ReplaceAllKeepsOut(s1, '<', "&lt;", '<');
    var s3 := ReplaceAll(s2, '>', "&gt;");
    ReplaceAllKeepsOut(s2, '>', "&gt;", '<');
    ReplaceAllKeepsOut(s2, '>', "&gt;", '>');
    var s4 := ReplaceAll(s3, '"', "&quot;");
    ReplaceAllKeepsOut(s3, '"', "&quot;", '<');
    ReplaceAllKeepsOut(s3, '"', "&quot;", '>');
    ReplaceAllKeepsOut(s3, '"', "&quot;", '"');
    ReplaceAllKeepsOut(s4, '\'', "&#039;", '<');
    ReplaceAllKeepsOut(s4, '\'', "&#039;", '>');
    ReplaceAllKeepsOut(s4, '\'', "&#039;", '"');
    ReplaceAllKeepsOut(s4, '\'', "&#039;", '\'');
  }

  /** `escapeHtml`: falsy input (the empty string) comes back as it is. */
  function EscapeHtml(text: string): (r: string)
    ensures text == "" ==> r == ""
    ensures '<' !in r && '>' !in r && '"' !in r && '\'' !in r
  {
    if text == "" then text else EscapedHasNoMarkup(text); Escaped(text)
  }

  /** What one character becomes. */
  function EscapeChar(c: char): string {
    if c == '&' then "&amp;"
    else if c == '<' then "&lt;"
    else if c == '>' then "&gt;"
    else if c == '"' then "&quot;"
    else if c == '\'' then "&#039;"
    else [c]
  }

  lemma EscapedAppend(a: string, b: string)
    ensures Escaped(a + b) == Escaped(a) + Escaped(b)
  {
    var s1a, s1b := ReplaceAll(a, '&', "&amp;"), ReplaceAll(b, '&', "&amp;");
    ReplaceAllAppend(a, b, '&', "&amp;");
    var s2a, s2b := ReplaceAll(s1a, '<', "&lt;"), ReplaceAll(s1b, '<', "&lt;");
    ReplaceAllAppend(s1a, s1b, '<', "&lt;");
    var s3a, s3b := ReplaceAll(s2a, '>', "&gt;"), ReplaceAll(s2b, '>', "&gt;");
    ReplaceAllAppend(s2a, s2b, '>', "&gt;");
    var s4a, s4b := ReplaceAll(s3a, '"', "&quot;"), ReplaceAll(s3b, '"', "&quot;");
    ReplaceAllAppend(s3a, s3b, '"', "&quot;");
    ReplaceAllAppend(s4a, s4b, '\'', "&#039;");
  }

  lemma ReplaceAllOne(c: char, x: char, rep: string)
    ensures ReplaceAll([c], x, rep) == if c == x then rep else [c]
  {
    assert [c][1..] == [];
  }

  /** The replacements after the first one. */
  function EscapedAfterAmpersand(s: string): string {
    ReplaceAll(ReplaceAll(ReplaceAll(ReplaceAll(
      s, '<', "&lt;"), '>', "&gt;"), '"', "&quot;"), '\'', "&#039;")
  }

  /** Text free of the four later characters passes the later
      replacements unchanged. */
  lemma EscapedAfterAmpersandFixes(s: string)
    requires '<' !in s && '>' !in s && '"' !in s && '\'' !in s
    ensures EscapedAfterAmpersand(s) == s
  {
    ReplaceAllAbsent(s, '<', "&lt;");
    ReplaceAllAbsent(s, '>', "&gt;");
    ReplaceAllAbsent(s, '"', "&quot;");
    ReplaceAllAbsent(s, '\'', "&#039;");
  }

  lemma EscapedOneChar(c: char)
    ensures Escaped([c]) == EscapeChar(c)
  {
    ReplaceAllOne(c, '&', "&amp;");
    if c == '&' {
      EscapedAfterAmpersandFixes("&amp;");
    } else {
      EscapedAfterAmpersandOneChar(c);
    }
  }

  lemma EscapedAfterAmpersandOneChar(c: char)
    requires c != '&'
    ensures EscapedAfterAmpersand([c]) == EscapeChar(c)
  {
    ReplaceAllOne(c, '<', "&lt;");
    if c == '<' {
      ReplaceAllAbsent("&lt;", '>', "&gt;");
      ReplaceAllAbsent("&lt;", '"', "&quot;");
      ReplaceAllAbsent("&lt;", '\'', "&#039;");
    } else {
      ReplaceAllOne(c, '>', "&gt;");
      if c == '>' {
        ReplaceAllAbsent("&gt;", '"', "&quot;");
        ReplaceAllAbsent("&gt;", '\'', "&#039;");
      } else {
        ReplaceAllOne(c, '"', "&quot;");
        if c == '"' {
          ReplaceAllAbsent("&quot;", '\'', "&#039;");
        } else {
          ReplaceAllOne(c, '\'', "&#039;");
        }
      }
    }
  }

  /** Because `&` is replaced first, the chain escapes every character on
      its own: no replacement rewrites the output of an earlier one. */
  lemma {:induction false} EscapedPerChar(s: string)
    ensures Escaped(s) == ConcatMap(s, EscapeChar)
  {
    if s != [] {
      assert s == [s[0]] + s[1..];
      EscapedAppend([s[0]], s[1..]);
      EscapedOneChar(s[0]);
      EscapedPerChar(s[1..]);
    }
  }

  /** `t` begins with one of the five entities `escapeHtml` writes. */
  predicate BeginsEntity(t: string) {
    StartsWith(t, "&amp;") || StartsWith(t, "&lt;") || StartsWith(t, "&gt;")
    || StartsWith(t, "&quot;") || StartsWith(t, "&#039;")
  }

  /** Every `&` of `r` begins an entity. */
  predicate AmpersandsBeginEntities(r: string) {
    forall i :: 0 <= i < |r| && r[i] == '&' ==> BeginsEntity(r[i..])
  }

  lemma {:induction false} PerCharAmpersands(s: string)
    ensures AmpersandsBeginEntities(ConcatMap(s, EscapeChar))
  {
    if s != [] {
      PerCharAmpersands(s[1..]);
      var head, rest := EscapeChar(s[0]), ConcatMap(s[1..], EscapeChar);
      var r := head + rest;
      forall i | 0 <= i < |r| && r[i] == '&' ensures BeginsEntity(r[i..]) {
        if i < |head| {
          EntityHead(s[0], i);
          EntityBeginsEntity(s[0], rest);
          assert r[i..] == r;
        } else {
          assert r[i..] == rest[i - |head|..];
          assert rest[i - |head|] == '&';
        }
      }
    }
  }

  /** Every `&` in escaped text begins an entity, so no text that was
      already escaped can be mistaken for an escape of this one. */
  lemma EscapeHtmlAmpersandsBeginEntities(s: string)
    ensures AmpersandsBeginEntities(EscapeHtml(s))
  {
    EscapedPerChar(s);
    PerCharAmpersands(s);
  }

  /** The characters `escapeHtml` turns into entities. */
  predicate Special(c: char) {
    c == '&' || c == '<' || c == '>' || c == '"' || c == '\''
  }

  /** An `&` written for one character is the first character of the
      entity of a special character. */
  lemma EntityHead(c: char, i: nat)
    requires i < |EscapeChar(c)| && EscapeChar(c)[i] == '&'
    ensures i == 0 && Special(c)
  {
  }

  lemma EntityBeginsEntity(c: char, rest: string)
    requires Special(c)
    ensures BeginsEntity(EscapeChar(c) + rest)
  {
    var e := EscapeChar(c);
    assert (e + rest)[..|e|] == e;
  }

  /** Decoding of the five entities, the partner of `EscapeHtml`. */
  function Unescape(t: string): string
    decreases |t|
  {
    if t == [] then []
    else if StartsWith(t, "&amp;") then "&" + Unescape(t[5..])
    else if StartsWith(t, "&lt;") then "<" + Unescape(t[4..])
    else if StartsWith(t, "&gt;") then ">" + Unescape(t[4..])
    else if StartsWith(t, "&quot;") then "\"" + Unescape(t[6..])
    else if StartsWith(t, "&#039;") then "'" + Unescape(t[6..])
    else [t[0]] + Unescape(t[1..])
  }

  lemma UnescapeStep(c: char, rest: string)
    ensures Unescape(EscapeChar(c) + rest) == [c] + Unescape(rest)
  {
    var e := EscapeChar(c);
    var t := e + rest;
    assert t[..|e|] == e;
    assert t[|e|..] == rest;
    if c == '&' {
      assert StartsWith(t, "&amp;");
    } else if c == '<' {
      StartsWithMismatch(t, "&amp;", 1);
      assert StartsWith(t, "&lt;");
    } else if c == '>' {
      StartsWithMismatch(t, "&amp;", 1);
      StartsWithMismatch(t, "&lt;", 1);
      assert StartsWith(t, "&gt;");
    } else if c == '"' {
      StartsWithMismatch(t, "&amp;", 1);
      StartsWithMismatch(t, "&lt;", 1);
      StartsWithMismatch(t, "&gt;", 1);
      assert StartsWith(t, "&quot;");
    } else if c == '\'' {
      StartsWithMismatch(t, "&amp;", 1);
      StartsWithMismatch(t, "&lt;", 1);
      StartsWithMismatch(t, "&gt;", 1);
      StartsWithMismatch(t, "&quot;", 1);
      assert StartsWith(t, "&#039;");
    } else {
      StartsWithMismatch(t, "&amp;", 0);
      StartsWithMismatch(t, "&lt;", 0);
      StartsWithMismatch(t, "&gt;", 0);
      StartsWithMismatch(t, "&quot;", 0);
      StartsWithMismatch(t, "&#039;", 0);
    }
  }

  /** Escaping loses nothing: decoding the escaped text gives it back. */
  lemma {:induction false} EscapeHtmlRoundTrip(s: string)
    ensures Unescape(EscapeHtml(s)) == s
  {
    if s != [] {
      EscapedPerChar(s);
      EscapeHtmlRoundTripPerChar(s);
    }
  }

  lemma {:induction false} EscapeHtmlRoundTripPerChar(s: string)
    ensures Unescape(ConcatMap(s, EscapeChar)) == s
  {
    if s != [] {
      UnescapeStep(s[0], ConcatMap(s[1..], EscapeChar));
      EscapeHtmlRoundTripPerChar(s[1..]);
    }
  }

  // ---------------------------------------------------------------------
  // Field cleaning and bold stripping

  /** The export's `clean`: tabs become spaces and newlines become `<br>`. */
  function Clean(s: string): (r: string)
    ensures '\t' !in r && '\n' !in r
  {
    ReplaceAllKeepsOut(s, '\t', " ", '\t');
    ReplaceAllKeepsOut(ReplaceAll(s, '\t', " "), '\n', "<br>", '\t');
    ReplaceAllKeepsOut(ReplaceAll(s, '\t', " "), '\n', "<br>", '\n');
    ReplaceAll(ReplaceAll(s, '\t', " "), '\n', "<br>")
  }

  /** Cleaning grows the text by three characters per newline and by
      nothing else. */
  lemma {:induction false} CleanLength(s: string)
    ensures |Clean(s)| == |s| + 3 * CountChar(s, '\n')
  {
    if s != [] {
      CleanLength(s[1..]);
      assert s == [s[0]] + s[1..];
      ReplaceAllAppend([s[0]], s[1..], '\t', " ");
      ReplaceAllOne(s[0], '\t', " ");
      var t := ReplaceAll([s[0]], '\t', " ");
      ReplaceAllAppend(t, ReplaceAll(s[1..], '\t', " "), '\n', "<br>");
      if s[0] == '\t' {
        ReplaceAllOne(' ', '\n', "<br>");
      } else {
        ReplaceAllOne(s[0], '\n', "<br>");
      }
    }
  }

  /** Cleaning clean text changes nothing. */
  lemma CleanIdempotent(s: string)
    ensures Clean(Clean(s)) == Clean(s)
  {
    ReplaceAllAbsent(Clean(s), '\t', " ");
    ReplaceAllAbsent(Clean(s), '\n', "<br>");
  }

  /** `ex.replace(/<b>|<\/b>/g, '')`: one left-to-right scan that deletes
      each `<b>` and `</b>` it meets. */
  function StripBold(s: string): (r: string)
    ensures |r| <= |s|
    decreases |s|
  {
    if s == [] then []
    else if StartsWith(s, "<b>") then StripBold(s[3..])
    else if StartsWith(s, "</b>") then StripBold(s[4..])
    else [s[0]] + StripBold(s[1..])
  }

  /** Text without markup is exported as it is. */
  lemma {:induction false} StripBoldWithoutMarkup(s: string)
    requires '<' !in s
    ensures StripBold(s) == s
  {
    if s != [] {
      assert s[0] != '<';
      StripBoldWithoutMarkup(s[1..]);
    }
  }

  /** The text around a bold tag survives: the scan drops the tag and
      nothing before it. */
  lemma {:induction false} StripBoldDropsTag(x: string, tag: string, y: string)
    requires tag == "<b>" || tag == "</b>"
    requires '<' !in x
    ensures StripBold(x + tag + y) == x + StripBold(y)
    decreases |x|
  {
    var s := x + tag + y;
    if x == [] {
      assert s == tag + y;
      StripBoldTagFirst(tag, y);
    } else {
      assert s == [x[0]] + (x[1..] + tag + y);
      StripBoldPlainHead(x[0], x[1..] + tag + y);
      StripBoldDropsTag(x[1..], tag, y);
      AppendAssociates([x[0]], x[1..], StripBold(y));
      assert [x[0]] + x[1..] == x;
    }
  }

  lemma StripBoldPlainHead(c: char, rest: string)
    requires c != '<'
    ensures StripBold([c] + rest) == [c] + StripBold(rest)
  {
    var s := [c] + rest;
    StartsWithMismatch(s, "<b>", 0);
    StartsWithMismatch(s, "</b>", 0);
    assert s[1..] == rest;
  }

  lemma StripBoldTagFirst(tag: string, y: string)
    requires tag == "<b>" || tag == "</b>"
    ensures StripBold(tag + y) == StripBold(y)
  {
    var s := tag + y;
    if tag == "<b>" {
      assert s[..3] == tag;
      assert s[3..] == y;
    } else {
      StartsWithMismatch(s, "<b>", 1);
      assert s[..4] == tag;
      assert s[4..] == y;
    }
  }

  /** Every `<` of `s` opens a `<b>` or `</b>` tag. */
  predicate OnlyBoldTags(s: string) {
    forall i :: 0 <= i < |s| && s[i] == '<' ==> StartsWith(s[i..], "<b>") || StartsWith(s[i..], "</b>")
  }

  /** When the only markup is bold tags, as in the translation endpoint's
      examples, no tag (indeed no `<`) survives. */
  lemma {:induction false} StripBoldRemovesAllTags(s: string)
    requires OnlyBoldTags(s)
    ensures '<' !in StripBold(s)
    decreases |s|
  {
    if s != [] {
      if StartsWith(s, "<b>") {
        OnlyBoldTagsSuffix(s, 3);
        StripBoldRemovesAllTags(s[3..]);
      } else if StartsWith(s, "</b>") {
        OnlyBoldTagsSuffix(s, 4);
        StripBoldRemovesAllTags(s[4..]);
      } else {
        assert s[0..] == s;
        assert s[0] != '<';
        OnlyBoldTagsSuffix(s, 1);
        StripBoldRemovesAllTags(s[1..]);
      }
    }
  }

  lemma OnlyBoldTagsSuffix(s: string, k: nat)
    requires OnlyBoldTags(s) && k <= |s|
    ensures OnlyBoldTags(s[k..])
  {
    forall i | 0 <= i < |s[k..]| && s[k..][i] == '<'
      ensures StartsWith(s[k..][i..], "<b>") || StartsWith(s[k..][i..], "</b>")
    {
      assert s[k..][i..] == s[k + i..];
    }
  }

  /** The scan is single-pass: deleting a tag can bring a new one together. */
  lemma StripBoldIsSinglePass()
    ensures StripBold("<<b>b>") == "<b>"
    ensures StripBold(StripBold("<<b>b>")) == ""
  {
    var s := "<<b>b>";
    assert !StartsWith(s, "<b>") && !StartsWith(s, "</b>") by {
      assert s[1] == '<';
    }
    assert s[1..] == "<b>b>";
    assert StartsWith(s[1..], "<b>");
    assert s[1..][3..] == "b>";
    StripBoldWithoutMarkup("b>");
    assert StripBold(s) == "<" + "b>";
    var t := "<b>";
    assert StartsWith(t, "<b>");
    assert t[3..] == "";
  }

  // ---------------------------------------------------------------------
  // The flashcard

  predicate PhoneticTruthy(w: StoredItem) {
    w.phonetic.Some? && w.phonetic.value != ""
  }

  /** The card front: the original in bold, with the phonetic in brackets
      on the words tab when there is one. */
  function Front(w: StoredItem, tab: Tab): string {
    "<strong>" + w.original + "</strong>"
    + if tab == Words && PhoneticTruthy(w)
      then " <span style=\"color:#666; font-size:0.8em;\">[" + w.phonetic.value + "]</span>"
      else ""
  }

  /** The front is the bolded original, followed by the bracketed phonetic
      exactly when the tab is the words tab and the phonetic is non-empty. */
  lemma FrontShowsPhoneticOnWordsTab(w: StoredItem, tab: Tab)
    ensures StartsWith(Front(w, tab), "<strong>" + w.original + "</strong>")
    ensures Front(w, tab) == "<strong>" + w.original + "</strong>" <==> !(tab == Words && PhoneticTruthy(w))
    ensures tab == Words && PhoneticTruthy(w) ==> EndsWith(Front(w, tab), "[" + w.phonetic.value + "]</span>")
  {
    var f, bold := Front(w, tab), "<strong>" + w.original + "</strong>";
    assert f[..|bold|] == bold;
    if tab == Words && PhoneticTruthy(w) {
      var tail := "[" + w.phonetic.value + "]</span>";
      assert f[|f| - |tail|..] == tail;
      assert |f| > |bold|;
    }
  }

  const DictOpen := "<div style=\"margin-bottom:10px;\">"
  const DefsOpen := "<div style=\"margin-bottom:10px; font-size:0.9em; text-align:left;\">"
  const ListOpen := "<ol style=\"margin:0; padding-left:20px;\">"
  const ExamplesOpen := "<div style=\"margin-top:10px; border-top:1px dashed #ccc; padding-top:5px; font-style:italic; font-size:0.9em; text-align:left; color:#555;\">"
  const SentenceOpen := "<div style=\"font-size:1.1em; color:#333;\">"

  /** One dictionary entry: the part of speech, then the terms joined by `, `. */
  function DictRow(d: DictEntry): string {
    "<div><i style=\"color:#007bff;\">" + d.pos + "</i> " + Join(d.terms, ", ") + "</div>"
  }

  function DefItem(def: string): string {
    "<li>" + def + "</li>"
  }

  function DefGroupHead(g: DefEntry): string {
    "<div><i>" + g.pos + "</i></div>" + ListOpen
  }

  function DefGroup(g: DefEntry): string {
    DefGroupHead(g) + ConcatMap(g.defs, DefItem) + "</ol>"
  }

  function ExampleLine(ex: string): string {
    "<div>\U{2022} " + StripBold(ex) + "</div>"
  }

  function SourceLink(url: string): string {
    "<div style=\"margin-top:10px; font-size:0.7em; color:#999;\"><a href=\"" + url + "\">Source</a></div>"
  }

  /** The dictionary block, or the translation when there is no dictionary
      (an empty dictionary is truthy and gives an empty block). */
  function DictionaryPart(w: StoredItem): string {
    match w.dictionary
    case Some(ds) => DictOpen + ConcatMap(ds, DictRow) + "</div>"
    case None => DictOpen + w.translated + "</div>"
  }

  function DefinitionsPart(w: StoredItem): string {
    match w.definitions
    case Some(gs) => DefsOpen + ConcatMap(gs, DefGroup) + "</div>"
    case None => ""
  }

  function ExamplesPart(w: StoredItem): string {
    match w.examples
    case Some(xs) => ExamplesOpen + ConcatMap(xs, ExampleLine) + "</div>"
    case None => ""
  }

  /** The card back: the word details on the words tab, only the
      translation on the sentences tab; the source link on both. */
  function Back(w: StoredItem, tab: Tab): string {
    (if tab == Words then DictionaryPart(w) + DefinitionsPart(w) + ExamplesPart(w)
     else SentenceOpen + w.translated + "</div>")
    + SourceLink(w.url)
  }

  /** Both tabs end the back with the source link; the words tab opens it
      with the dictionary block, the sentences tab with the translation. */
  lemma BackLayout(w: StoredItem, tab: Tab)
    ensures EndsWith(Back(w, tab), SourceLink(w.url))
    ensures tab == Words ==> StartsWith(Back(w, tab), DictOpen)
    ensures tab == Sentences ==> StartsWith(Back(w, tab), SentenceOpen + w.translated + "</div>")
  {
    var b := Back(w, tab);
    var link := SourceLink(w.url);
    assert b[|b| - |link|..] == link;
    if tab == Words {
      var d := DictionaryPart(w);
      assert d[..|DictOpen|] == DictOpen;
      assert b[..|DictOpen|] == d[..|DictOpen|];
    } else {
      var head := SentenceOpen + w.translated + "</div>";
      assert b[..|head|] == head;
    }
  }

  /** On the sentences tab the back shows the translation and the source
      and nothing else of the item. */
  lemma SentenceBackUsesOnlyTranslation(w1: StoredItem, w2: StoredItem)
    requires w1.translated == w2.translated && w1.url == w2.url
    ensures Back(w1, Sentences) == Back(w2, Sentences)
    ensures Front(w1, Sentences) == Front(w2, Sentences) <== w1.original == w2.original
  {
  }

  /** On the words tab a dictionary, even an empty one, replaces the
      translation: the translation then does not reach the card. */
  lemma WordBackIgnoresTranslationWithDictionary(w: StoredItem, translated: string)
    requires w.dictionary.Some?
    ensures Back(w, Words) == Back(w.(translated := translated), Words)
  {
  }

  /** The dictionary block built with `+=`, one row per entry. */
  method BuildDictionaryPart(w: StoredItem) returns (part: string)
    ensures part == DictionaryPart(w)
  {
    match w.dictionary {
      case Some(ds) =>
        part := DictOpen;
        for i := 0 to |ds|
          invariant part == DictOpen + ConcatMap(ds[..i], DictRow)
        {
          ConcatMapSnoc(ds[..i], ds[i], DictRow);
          AppendAssociates(DictOpen, ConcatMap(ds[..i], DictRow), DictRow(ds[i]));
          assert ds[..i + 1] == ds[..i] + [ds[i]];
          part := part + DictRow(ds[i]);
        }
        assert ds[..|ds|] == ds;
        part := part + "</div>";
      case None =>
        part := DictOpen + w.translated + "</div>";
    }
  }

  /** One definition group: its heading, then one list item per definition. */
  method BuildDefGroup(g: DefEntry) returns (part: string)
    ensures part == DefGroup(g)
  {
    part := "<div><i>" + g.pos + "</i></div>";
    part := part + ListOpen;
    for j := 0 to |g.defs|
      invariant part == DefGroupHead(g) + ConcatMap(g.defs[..j], DefItem)
    {
      ConcatMapSnoc(g.defs[..j], g.defs[j], DefItem);
      AppendAssociates(DefGroupHead(g), ConcatMap(g.defs[..j], DefItem), DefItem(g.defs[j]));
      assert g.defs[..j + 1] == g.defs[..j] + [g.defs[j]];
      part := part + DefItem(g.defs[j]);
    }
    assert g.defs[..|g.defs|] == g.defs;
    part := part + "</ol>";
  }

  method BuildDefinitionsPart(w: StoredItem) returns (part: string)
    ensures part == DefinitionsPart(w)
  {
    part := "";
    if w.definitions.Some? {
      var gs := w.definitions.value;
      part := DefsOpen;
      for i := 0 to |gs|
        invariant part == DefsOpen + ConcatMap(gs[..i], DefGroup)
      {
        var group := BuildDefGroup(gs[i]);
        ConcatMapSnoc(gs[..i], gs[i], DefGroup);
        AppendAssociates(DefsOpen, ConcatMap(gs[..i], DefGroup), group);
        assert gs[..i + 1] == gs[..i] + [gs[i]];
        part := part + group;
      }
      assert gs[..|gs|] == gs;
      part := part + "</div>";
    }
  }

  method BuildExamplesPart(w: StoredItem) returns (part: string)
    ensures part == ExamplesPart(w)
  {
    part := "";
    if w.examples.Some? {
      var xs := w.examples.value;
      part := ExamplesOpen;
      for i := 0 to |xs|
        invariant part == ExamplesOpen + ConcatMap(xs[..i], ExampleLine)
      {
        ConcatMapSnoc(xs[..i], xs[i], ExampleLine);
        AppendAssociates(ExamplesOpen, ConcatMap(xs[..i], ExampleLine), ExampleLine(xs[i]));
        assert xs[..i + 1] == xs[..i] + [xs[i]];
        part := part + ExampleLine(xs[i]);
      }
      assert xs[..|xs|] == xs;
      part := part + "</div>";
    }
  }

  /** Builds the back with `+=`, block by block, as the export does. */
  method BuildBack(w: StoredItem, tab: Tab) returns (back: string)
    ensures back == Back(w, tab)
  {
    back := "";
    if tab == Words {
      var dict := BuildDictionaryPart(w);
      var defs := BuildDefinitionsPart(w);
      var examples := BuildExamplesPart(w);
      back := back + dict;
      back := back + defs;
      back := back + examples;
      assert back == DictionaryPart(w) + DefinitionsPart(w) + ExamplesPart(w);
    } else {
      back := back + SentenceOpen + w.translated + "</div>";
    }
    back := back + SourceLink(w.url);
  }

  // ---------------------------------------------------------------------
  // The CSV file

  const Header := "# separator:Tab\n# html:true\nFront\tBack\n"

  /** The three lines the header consists of. */
  const HeaderLines := ["# separator:Tab", "# html:true", "Front\tBack"]

  /** One data line, without its newline: the cleaned front and back
      separated by a tab. */
  function RowLine(front: string, back: string): string {
    Clean(front) + "\t" + Clean(back)
  }

  /** The data line of one item. */
  function ItemLine(w: StoredItem, tab: Tab): string {
    RowLine(Front(w, tab), Back(w, tab))
  }

  /** The data lines of the items, in list order. */
  function RowLines(items: seq<StoredItem>, tab: Tab): seq<string> {
    Map(items, LineOf(tab))
  }

  function LineOf(tab: Tab): StoredItem -> string {
    w => ItemLine(w, tab)
  }

  function Csv(items: seq<StoredItem>, tab: Tab): (r: string)
    ensures StartsWith(r, Header)
    ensures items == [] ==> r == Header
  {
    Header + Terminated(RowLines(items, tab))
  }

  /** A data line holds exactly one tab, between front and back, and no newline. */
  lemma RowLineHasOneTab(front: string, back: string)
    ensures CountChar(RowLine(front, back), '\t') == 1
    ensures '\n' !in RowLine(front, back)
  {
    var f, b := Clean(front), Clean(back);
    CountCharAppend(f, "\t", '\t');
    CountCharAppend(f + "\t", b, '\t');
  }

  lemma HeaderIsTerminated()
    ensures Header == Terminated(HeaderLines)
  {
  }

  lemma HeaderLinesOneLineEach(k: nat)
    requires k < 3
    ensures '\n' !in HeaderLines[k]
  {
  }

  /** Below a header, newline-free lines come back one per line. */
  lemma HeaderThenLines(lines: seq<string>)
    requires forall k :: 0 <= k < |lines| ==> '\n' !in lines[k]
    ensures Lines(Header + Terminated(lines)) == HeaderLines + lines
  {
    var all := HeaderLines + lines;
    HeaderIsTerminated();
    TerminatedAppend(HeaderLines, lines);
    assert Header + Terminated(lines) == Terminated(all);
    forall k | 0 <= k < |all| ensures '\n' !in all[k] {
      if k >= 3 {
        assert all[k] == lines[k - 3];
      } else {
        HeaderLinesOneLineEach(k);
      }
    }
    LinesTerminated(all);
  }

  /** The file is the three header lines followed by exactly one line per
      item, in list order, each with a single tab. */
  lemma CsvLines(items: seq<StoredItem>, tab: Tab)
    ensures Lines(Csv(items, tab)) == HeaderLines + RowLines(items, tab)
    ensures |Lines(Csv(items, tab))| == 3 + |items|
    ensures forall k :: 3 <= k < 3 + |items| ==> CountChar(Lines(Csv(items, tab))[k], '\t') == 1
  {
    var rows := RowLines(items, tab);
    forall k | 0 <= k < |rows| ensures '\n' !in rows[k] && CountChar(rows[k], '\t') == 1 {
      MapAt(items, LineOf(tab), k);
      RowLineHasOneTab(Front(items[k], tab), Back(items[k], tab));
    }
    HeaderThenLines(rows);
  }

  /** Builds the file with `+=`, one line per item. */
  method BuildCsv(items: seq<StoredItem>, tab: Tab) returns (csv: string)
    ensures csv == Csv(items, tab)
  {
    csv := Header;
    for i := 0 to |items|
      invariant csv == Header + Terminated(RowLines(items[..i], tab))
    {
      var w := items[i];
      var front := Front(w, tab);
      var back := BuildBack(w, tab);
      CsvStep(items, i, tab);
      assert ItemLine(w, tab) == RowLine(front, back);
      csv := csv + (RowLine(front, back) + "\n");
    }
    assert items[..|items|] == items;
  }

  /** Appending the line of the next item extends the file by that line. */
  lemma CsvStep(items: seq<StoredItem>, i: nat, tab: Tab)
    requires i < |items|
    ensures Header + Terminated(RowLines(items[..i + 1], tab))
      == Header + Terminated(RowLines(items[..i], tab)) + (ItemLine(items[i], tab) + "\n")
  {
    var rows := RowLines(items[..i], tab);
    MapSnoc(items[..i], items[i], LineOf(tab));
    assert items[..i + 1] == items[..i] + [items[i]];
    TerminatedSnoc(rows, LineOf(tab)(items[i]));
    AppendAssociates(Header, Terminated(rows), ItemLine(items[i], tab) + "\n");
  }

  // ---------------------------------------------------------------------
  // The list operations

  /** `list.splice(index, 1)`: removes the element at `index`; an index past
      the end removes nothing. */
  function Spliced(s: seq<StoredItem>, index: nat): (r: seq<StoredItem>)
    ensures index >= |s| ==> r == s
    ensures index < |s| ==> |r| == |s| - 1 && r[..index] == s[..index] && r[index..] == s[index + 1..]
  {
    if index < |s| then s[..index] + s[index + 1..] else s
  }

  /** Removing an item in range drops exactly that item and keeps the
      others in their order. */
  lemma SplicedRemovesOne(s: seq<StoredItem>, index: nat)
    requires index < |s|
    ensures |Spliced(s, index)| == |s| - 1
    ensures forall j :: 0 <= j < index ==> Spliced(s, index)[j] == s[j]
    ensures forall j :: index <= j < |s| - 1 ==> Spliced(s, index)[j] == s[j + 1]
    ensures multiset(s) == multiset(Spliced(s, index)) + multiset{s[index]}
  {
    assert s == s[..index] + [s[index]] + s[index + 1..];
  }

  /** The exported file: its name and content. */
  datatype Download = Download(fileName: string, content: string)

  /** The popup's state: the current tab and the extension's local storage. */
  class Popup {
    var currentTab: Tab
    var storage: map<string, seq<StoredItem>>

    constructor (stored: map<string, seq<StoredItem>>)
      ensures currentTab == Words && storage == stored
    {
      currentTab := Words;
      storage := stored;
    }

    /** `result[key] || []`: a list never saved reads as empty. */
    function ListOf(key: string): seq<StoredItem>
      reads this
    {
      if key in storage then storage[key] else []
    }

    /** The list the current tab shows. */
    function Current(): seq<StoredItem>
      reads this
    {
      ListOf(StorageKey(currentTab))
    }

    /** Selecting the current tab again changes nothing. */
    method SwitchTab(tab: Tab)
      modifies this
      ensures currentTab == tab
      ensures storage == old(storage)
    {
      if currentTab == tab {
        return;
      }
      currentTab := tab;
    }

    /** Clear-all: after confirmation, the current tab's list becomes empty. */
    method ClearAll(confirmed: bool)
      modifies this
      ensures currentTab == old(currentTab)
      ensures storage == if confirmed then old(storage)[StorageKey(currentTab) := []] else old(storage)
      ensures confirmed ==> Current() == []
    {
      var key := StorageKey(currentTab);
      if confirmed {
        storage := storage[key := []];
      }
    }

    /** Deletes the item at `index` of the current list and stores the list back. */
    method RemoveItem(index: nat)
      modifies this
      ensures currentTab == old(currentTab)
      ensures storage == old(storage)[StorageKey(currentTab) := Spliced(old(Current()), index)]
      ensures Current() == Spliced(old(Current()), index)
    {
      var key := StorageKey(currentTab);
      var list := ListOf(key);
      list := Spliced(list, index);
      storage := storage[key := list];
    }

    /** Export: nothing for an empty list; otherwise the file named after
      the tab, holding the header and one line per item of the current list. */
    method ExportToAnki() returns (file: Option<Download>)
      ensures file.None? <==> Current() == []
      ensures file.Some? ==>
        file.value == Download("memo_" + TabName(currentTab) + "_export.csv", Csv(Current(), currentTab))
    {
      var items := ListOf(StorageKey(currentTab));
      if |items| == 0 {
        return None;
      }
      var csv := BuildCsv(items, currentTab);
      file := Some(Download("memo_" + TabName(currentTab) + "_export.csv", csv));
    }
  }
}
