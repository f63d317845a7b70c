/** The translation helpers of lib/deepl.ts: the catalog name lookup, the
    normalisation of a detected source code, the divergence score and the
    random chain generator. The DeepL client itself is a `Provider` value. */
module Deepl {
  import opened Wrappers
  import opened Text
  import opened Types

  /** The two DeepL calls the engine makes, each of which may fail with a
      message: translate `text` into `target`, and the source code DeepL
      reports when it detects the language of `text`. */
  datatype Provider = Provider(
    translate: (string, LanguageCode) -> Result<string, string>,
    detectSource: string -> Result<string, string>)

  // ---------------------------------------------------------------------
  // getLanguageName

  /** `langs.find(l => l.code === code)`: the first entry with that code. */
  function Find(langs: seq<Language>, code: LanguageCode): Option<Language> {
    if langs == [] then None
    else if langs[0].code == code then Some(langs[0])
    else Find(langs[1..], code)
  }

  /** `find` answers the first entry with the code, and nothing exactly
      when no entry has it. */
  lemma {:induction false} FindFirstMatch(langs: seq<Language>, code: LanguageCode)
    ensures Find(langs, code).None? <==> forall i :: 0 <= i < |langs| ==> langs[i].code != code
    ensures Find(langs, code).Some? ==>
              exists i :: 0 <= i < |langs| && langs[i] == Find(langs, code).value && langs[i].code == code
                          && forall j :: 0 <= j < i ==> langs[j].code != code
  {
    if langs != [] && langs[0].code != code {
      FindFirstMatch(langs[1..], code);
      var r := Find(langs[1..], code);
      if r.Some? {
        var i :| 0 <= i < |langs[1..]| && langs[1..][i] == r.value && r.value.code == code
                 && forall j :: 0 <= j < i ==> langs[1..][j].code != code;
        assert langs[i + 1] == r.value;
      }
    }
  }

  /** `getLanguageName`: the name of the first catalog entry with the code
      when that name is non-empty, the code itself otherwise. */
  function LanguageName(code: LanguageCode): string {
    var lang := Find(SupportedLanguages, code);
    if lang.Some? && lang.value.name != "" then lang.value.name else code
  }

  /** A catalog code is named by its catalog entry; any other string is its
      own name. */
  lemma LanguageNameFromCatalog(code: LanguageCode)
    ensures forall i :: 0 <= i < |SupportedLanguages| && SupportedLanguages[i].code == code
              ==> LanguageName(code) == SupportedLanguages[i].name
    ensures code !in Codes() ==> LanguageName(code) == code
  {
    CatalogCodesDistinct();
    CatalogNamesNonEmpty();
    FindFirstMatch(SupportedLanguages, code);
  }

  /** Names of three catalog codes, as the interface shows them. */
  lemma KnownLanguageNames(code: LanguageCode)
    ensures code == "EN-US" ==> LanguageName(code) == "English (US)"
    ensures code == "DE" ==> LanguageName(code) == "German"
    ensures code == "JA" ==> LanguageName(code) == "Japanese"
  {
    if code == "EN-US" {
      CatalogEntry(0, code, "English (US)");
    } else if code == "DE" {
      CatalogEntry(2, code, "German");
    } else if code == "JA" {
      CatalogEntry(11, code, "Japanese");
    }
  }

  lemma CatalogEntry(i: nat, code: LanguageCode, name: string)
    requires i < |SupportedLanguages| && SupportedLanguages[i] == Language(code, name)
    ensures LanguageName(code) == name
  {
    LanguageNameFromCatalog(code);
  }

  // ---------------------------------------------------------------------
  // detectLanguage (the code normalisation at its end)

  /** The mapping from the source code DeepL detects to a target code:
      upper-case it, then send EN, PT and ZH to the variants the catalog
      lists. */
  function NormalizeDetectedCode(detected: string): (r: LanguageCode)
    ensures forall i :: 0 <= i < |r| ==> !IsLowerAscii(r[i])
    ensures ToUpper(detected) == "EN" ==> r == "EN-US"
    ensures ToUpper(detected) == "PT" ==> r == "PT-BR"
    ensures ToUpper(detected) == "ZH" ==> r == "ZH-HANS"
    ensures ToUpper(detected) !in {"EN", "PT", "ZH"} ==> r == ToUpper(detected)
  {
    var upper := ToUpper(detected);
    if upper == "EN" then "EN-US"
    else if upper == "PT" then "PT-BR"
    else if upper == "ZH" then "ZH-HANS"
    else upper
  }

  /** Normalising an already normalised code changes nothing. */
  lemma NormalizeDetectedCodeIdempotent(detected: string)
    ensures NormalizeDetectedCode(NormalizeDetectedCode(detected)) == NormalizeDetectedCode(detected)
  {
    var r := NormalizeDetectedCode(detected);
    ToUpperIdempotent(detected);
    assert ToUpper("EN-US") == "EN-US";
    assert ToUpper("PT-BR") == "PT-BR";
    assert ToUpper("ZH-HANS") == "ZH-HANS";
  }

  /** The three targets of the normalisation table are catalog codes. */
  lemma NormalizationTargetsInCatalog(detected: string)
    requires ToUpper(detected) in {"EN", "PT", "ZH"}
    ensures NormalizeDetectedCode(detected) in Codes()
  {
    assert Codes()[0] == "EN-US";
    assert Codes()[7] == "PT-BR";
    assert Codes()[12] == "ZH-HANS";
  }

  /** `detectLanguage`: ask the provider for the source code, then normalise it. */
  function DetectLanguage(p: Provider, text: string): (r: Result<LanguageCode, string>)
    ensures r.Ok? <==> p.detectSource(text).Ok?
    ensures r.Ok? ==> r.value == NormalizeDetectedCode(p.detectSource(text).value)
    ensures r.Err? ==> r.error == p.detectSource(text).error
  {
    match p.detectSource(text)
    case Ok(detected) => Ok(NormalizeDetectedCode(detected))
    case Err(message) => Err(message)
  }

  // ---------------------------------------------------------------------
  // calculateDivergence

  /** The fixed stop-word list. */
  const StopWords: set<string> := {
    "a", "an", "and", "are", "as", "at", "be", "by", "for", "from",
    "has", "he", "in", "is", "it", "its", "of", "on", "that", "the",
    "to", "was", "will", "with", "this", "but", "they", "have", "had",
    "what", "when", "where", "who", "which", "why", "how", "or", "can",
    "could", "would", "should", "may", "might", "must", "shall", "i", "you",
    "we", "my", "your", "our", "me", "him", "her", "us", "them"
  }

  /** `.replace(/[^\w\s]/g, ' ')`: every character that is neither a word
      character nor whitespace becomes a space. */
  function ReplaceSymbols(s: string): (r: string)
    ensures |r| == |s|
    ensures forall i :: 0 <= i < |s| ==> r[i] == (if IsWordChar(s[i]) || IsSpace(s[i]) then s[i] else ' ')
  {
    seq(|s|, i requires 0 <= i < |s| => if IsWordChar(s[i]) || IsSpace(s[i]) then s[i] else ' ')
  }

  /** `.replace(/\s+/g, ' ')`: every maximal run of whitespace becomes one
      space. `CollapseShape` gives the shape of the result, and
      `CollapseKeepsWord`, `CollapseRun` and `CollapseConcat` pin it down run
      by run. */
  function CollapseSpaces(s: string): (r: string)
    ensures |r| <= |s|
    ensures r == [] <==> s == []
    decreases |s|
  {
    if s == [] then []
    else if IsSpace(s[0]) then [' '] + CollapseSpaces(TrimStart(s))
    else [s[0]] + CollapseSpaces(s[1..])
  }

  /** The collapsed text keeps every character but whitespace, holds no
      whitespace but single spaces, and starts (ends) with a space exactly
      when the input starts (ends) with whitespace. */
  lemma {:induction false} CollapseShape(s: string)
    ensures forall c :: c in CollapseSpaces(s) ==> c == ' ' || (c in s && !IsSpace(c))
    ensures var r := CollapseSpaces(s);
            forall i :: 0 <= i < |r| - 1 ==> !(r[i] == ' ' && r[i + 1] == ' ')
    ensures s != [] ==> (CollapseSpaces(s)[0] == ' ' <==> IsSpace(s[0]))
    ensures s != [] ==> (CollapseSpaces(s)[|CollapseSpaces(s)| - 1] == ' ' <==> IsSpace(s[|s| - 1]))
    decreases |s|
  {
    if s != [] {
      var r := CollapseSpaces(s);
      if IsSpace(s[0]) {
        var t := TrimStart(s);
        CollapseShape(t);
        assert r == [' '] + CollapseSpaces(t);
        assert forall c :: c in t ==> c in s;
        if t != [] {
          assert t[|t| - 1] == s[|s| - 1];
        }
      } else {
        CollapseShape(s[1..]);
        assert r == [s[0]] + CollapseSpaces(s[1..]);
        assert forall c :: c in s[1..] ==> c in s;
      }
    }
  }

  /** Text without whitespace passes through unchanged. */
  lemma {:induction false} CollapseKeepsWord(w: string)
    requires forall i :: 0 <= i < |w| ==> !IsSpace(w[i])
    ensures CollapseSpaces(w) == w
    decreases |w|
  {
    if w != [] {
      CollapseKeepsWord(w[1..]);
      assert [w[0]] + w[1..] == w;
    }
  }

  /** A whitespace run in front of text that does not start with whitespace
      becomes a single space. */
  lemma CollapseRun(run: string, b: string)
    requires run != [] && forall i :: 0 <= i < |run| ==> IsSpace(run[i])
    requires b == [] || !IsSpace(b[0])
    ensures CollapseSpaces(run + b) == [' '] + CollapseSpaces(b)
  {
    TrimStartSkipsRun(run, b);
  }

  /** Collapsing splits at any point just after a non-whitespace character. */
  lemma {:induction false} CollapseConcat(a: string, b: string)
    requires a == [] || !IsSpace(a[|a| - 1])
    ensures CollapseSpaces(a + b) == CollapseSpaces(a) + CollapseSpaces(b)
    decreases |a|
  {
    if a == [] {
      assert a + b == b;
    } else if IsSpace(a[0]) {
      TrimStartConcat(a, b);
      var t := TrimStart(a);
      assert t != [];
      CollapseConcat(t, b);
    } else {
      assert (a + b)[1..] == a[1..] + b;
      CollapseConcat(a[1..], b);
    }
  }

  /** Collapsing removes whitespace only: the non-whitespace characters are
      those of the input, in order. */
  lemma {:induction false} CollapseKeepsNonBlank(s: string)
    ensures NonBlank(CollapseSpaces(s)) == NonBlank(s)
    decreases |s|
  {
    if s != [] {
      if IsSpace(s[0]) {
        var t := TrimStart(s);
        CollapseKeepsNonBlank(t);
        NonBlankConcat([' '], CollapseSpaces(t));
        NonBlankOfInfix(s, |s| - |t|, t);
      } else {
        CollapseKeepsNonBlank(s[1..]);
        NonBlankConcat([s[0]], CollapseSpaces(s[1..]));
      }
    }
  }

  /** Single-spaced text is its own collapse. */
  lemma {:induction false} CollapseSingleSpaced(s: string)
    requires forall i :: 0 <= i < |s| ==> s[i] == ' ' || !IsSpace(s[i])
    requires forall i :: 0 <= i < |s| - 1 ==> !(s[i] == ' ' && s[i + 1] == ' ')
    ensures CollapseSpaces(s) == s
    decreases |s|
  {
    if s != [] {
      CollapseSingleSpaced(s[1..]);
      if s[0] == ' ' {
        assert TrimStart(s) == s[1..];
      }
      assert [s[0]] + s[1..] == s;
    }
  }

  /** The shape `normalize` produces: lower-case word characters and single
      spaces, with no space at either end. */
  predicate PlainText(t: string) {
    (forall i :: 0 <= i < |t| ==> t[i] == ' ' || (IsWordChar(t[i]) && !IsUpperAscii(t[i])))
    && (t == [] || (t[0] != ' ' && t[|t| - 1] != ' '))
    && (forall i :: 0 <= i < |t| - 1 ==> !(t[i] == ' ' && t[i + 1] == ' '))
  }

  /** The `normalize` arrow of `calculateDivergence`: lower-case, symbols to
      spaces, whitespace runs to one space, trimmed. The result is plain text
      (`PlainText`), `NormalizeKeepsWordChars` shows that it keeps the word
      characters in order, and `NormalizePlain` that plain text is left as it
      is. */
  function Normalize(s: string): (r: string)
    ensures PlainText(r)
  {
    var lowered := ToLower(s);
    var replaced := ReplaceSymbols(lowered);
    assert forall c :: c in replaced ==> IsSpace(c) || (IsWordChar(c) && !IsUpperAscii(c));
    var collapsed := CollapseSpaces(replaced);
    CollapseShape(replaced);
    var trimmed := Trim(collapsed);
    NormalizeShape(collapsed, trimmed);
    trimmed
  }

  /** Trimming keeps a collapsed text's characters and single spacing. */
  lemma NormalizeShape(collapsed: string, trimmed: string)
    requires forall c :: c in collapsed ==> c == ' ' || (IsWordChar(c) && !IsUpperAscii(c))
    requires forall i :: 0 <= i < |collapsed| - 1 ==> !(collapsed[i] == ' ' && collapsed[i + 1] == ' ')
    requires trimmed == Trim(collapsed)
    ensures PlainText(trimmed)
  {
    var lead := LeadingSpaces(collapsed);
    assert forall k :: 0 <= k < |trimmed| ==> trimmed[k] == collapsed[lead + k];
    forall i | 0 <= i < |trimmed|
      ensures trimmed[i] == ' ' || (IsWordChar(trimmed[i]) && !IsUpperAscii(trimmed[i]))
    {
      assert collapsed[lead + i] in collapsed;
    }
  }

  /** The word characters of `s`, in order. */
  function WordChars(s: string): (r: string)
    ensures |r| <= |s|
    ensures forall c :: c in r ==> IsWordChar(c) && c in s
  {
    if s == [] then [] else (if IsWordChar(s[0]) then [s[0]] else []) + WordChars(s[1..])
  }

  /** Normalising keeps exactly the word characters of the lower-cased text,
      in order: only the arrangement of spaces between them changes. */
  lemma NormalizeKeepsWordChars(s: string)
    ensures NonBlank(Normalize(s)) == WordChars(ToLower(s))
  {
    var replaced := ReplaceSymbols(ToLower(s));
    var collapsed := CollapseSpaces(replaced);
    TrimKeepsNonBlank(collapsed);
    CollapseKeepsNonBlank(replaced);
    ReplacedNonBlank(ToLower(s));
  }

  /** Replacing symbols with spaces leaves the word characters as the only
      non-whitespace characters. */
  lemma {:induction false} ReplacedNonBlank(s: string)
    ensures NonBlank(ReplaceSymbols(s)) == WordChars(s)
    decreases |s|
  {
    if s != [] {
      ReplacedNonBlank(s[1..]);
      assert ReplaceSymbols(s)[1..] == ReplaceSymbols(s[1..]);
    }
  }

  /** Plain text is already normalised. */
  lemma NormalizePlain(s: string)
    requires PlainText(s)
    ensures Normalize(s) == s
  {
    assert ToLower(s) == s;
    assert ReplaceSymbols(s) == s;
    CollapseSingleSpaced(s);
    TrimUnchanged(s);
  }

  /** Normalising twice is normalising once. */
  lemma NormalizeIdempotent(s: string)
    ensures Normalize(Normalize(s)) == Normalize(s)
  {
    NormalizePlain(Normalize(s));
  }

  /** `normalize(text).split(' ')`. */
  function Words(s: string): seq<string> {
    Split(Normalize(s), ' ')
  }

  /** `getMeaningfulWords`: the set of words longer than two characters that
      are not stop words. */
  function MeaningfulWords(s: string): (r: set<string>)
    ensures forall w :: w in r ==> IsMeaningful(w)
  {
    WordsAreLowerWords(s);
    set w | w in Words(s) && |w| > 2 && w !in StopWords
  }

  /** Every word of the normalised text is a run of lower-case word
      characters. */
  lemma WordsAreLowerWords(s: string)
    ensures forall w :: w in Words(s) ==> IsLowerWord(w)
  {
    var n := Normalize(s);
    SplitPiecesFree(n, ' ');
    forall w | w in Split(n, ' ') ensures IsLowerWord(w) {
      forall i | 0 <= i < |w| ensures IsWordChar(w[i]) && !IsUpperAscii(w[i]) {
        SplitChars(n, ' ', w, w[i]);
      }
    }
  }

  /** A word that counts for the score: lower-case word characters only,
      more than two of them, and not a stop word. */
  predicate IsMeaningful(w: string) {
    |w| > 2 && w !in StopWords && IsLowerWord(w)
  }

  /** A run of lower-case word characters. */
  predicate IsLowerWord(w: string) {
    forall i :: 0 <= i < |w| ==> IsWordChar(w[i]) && !IsUpperAscii(w[i])
  }

  /** A non-empty list of non-empty runs of lower-case word characters. */
  predicate PlainWords(ws: seq<string>) {
    |ws| >= 1 && forall i :: 0 <= i < |ws| ==> ws[i] != [] && IsLowerWord(ws[i])
  }

  /** Such words joined by single spaces form plain text. */
  lemma {:induction false} JoinPlainWords(ws: seq<string>)
    requires PlainWords(ws)
    ensures PlainText(Join(ws, ' '))
    decreases |ws|
  {
    if |ws| > 1 {
      JoinPlainWords(ws[1..]);
      PlainCons(ws[0], Join(ws[1..], ' '));
    }
  }

  /** A lower-case word, a space and non-empty plain text form plain text. */
  lemma PlainCons(w: string, t: string)
    requires w != [] && IsLowerWord(w)
    requires t != [] && PlainText(t)
    ensures PlainText(w + [' '] + t)
  {
    var u := w + [' '] + t;
    assert forall i :: 0 <= i < |w| ==> u[i] == w[i];
    assert forall i :: 0 <= i < |t| ==> u[|w| + 1 + i] == t[i];
    forall i | 0 <= i < |u| - 1
      ensures !(u[i] == ' ' && u[i + 1] == ' ')
    {
      if i > |w| {
        assert u[i] == t[i - |w| - 1] && u[i + 1] == t[i - |w|];
      }
    }
  }

  /** The words of lower-case words joined by single spaces are those words. */
  lemma WordsOfPlainWords(ws: seq<string>)
    requires PlainWords(ws)
    ensures Words(Join(ws, ' ')) == ws
  {
    JoinPlainWords(ws);
    NormalizePlain(Join(ws, ' '));
    forall i | 0 <= i < |ws| ensures ' ' !in ws[i] {
      assert forall k :: 0 <= k < |ws[i]| ==> ws[i][k] != ' ';
    }
    JoinSplit(ws, ' ');
  }

  /** For a text of single-spaced lower-case words, the meaningful words are
      exactly those words longer than two characters that are not stop words. */
  lemma MeaningfulWordsOfPlainWords(ws: seq<string>)
    requires PlainWords(ws)
    ensures MeaningfulWords(Join(ws, ' ')) == set w | w in ws && |w| > 2 && w !in StopWords
  {
    WordsOfPlainWords(ws);
  }

  /** The same holds for any text that lower-cases to such words. */
  lemma MeaningfulWordsUpToCase(t: string, ws: seq<string>)
    requires PlainWords(ws) && ToLower(t) == Join(ws, ' ')
    ensures MeaningfulWords(t) == set w | w in ws && |w| > 2 && w !in StopWords
  {
    ToLowerIdempotent(t);
    assert Normalize(t) == Normalize(Join(ws, ' '));
    MeaningfulWordsOfPlainWords(ws);
  }

  /** Every character of a piece of `Split(s, sep)` is a character of `s`. */
  lemma {:induction false} SplitChars(s: string, sep: char, p: string, c: char)
    requires p in Split(s, sep) && c in p
    ensures c in s
    decreases |s|
  {
    if s != [] {
      var rest := Split(s[1..], sep);
      if s[0] == sep {
        assert p in rest;
        SplitChars(s[1..], sep, p, c);
      } else if p == [s[0]] + rest[0] {
        if c != s[0] {
          SplitChars(s[1..], sep, rest[0], c);
        }
      } else {
        assert p in rest[1..];
        SplitChars(s[1..], sep, p, c);
      }
    }
  }

  /** `Math.round((1 - inter / union) * 100)` on exact rationals: round half up
      of `100 * (union - inter) / union`. */
  function RoundedDistance(inter: nat, union: nat): (d: int)
    requires 0 < union && inter <= union
    ensures 0 <= d <= 100
    ensures 2 * union * d <= 200 * (union - inter) + union < 2 * union * (d + 1)
  {
    var num := 200 * (union - inter) + union;
    var den := 2 * union;
    assert num < den * 101;
    DivBounds(num, den);
    num / den
  }

  /** Euclidean division brackets the dividend, and a dividend below
      `101 * den` gives a quotient of at most 100. */
  lemma DivBounds(num: nat, den: nat)
    requires den > 0 && num < den * 101
    ensures 0 <= num / den <= 100
    ensures den * (num / den) <= num < den * (num / den + 1)
  {
    var d := num / den;
    assert num == den * d + num % den && 0 <= num % den < den;
    assert den * (d + 1) == den * d + den;
    if d >= 101 {
      MulMonotone(den, 101, d);
      assert false;
    }
  }

  lemma {:induction false} MulMonotone(a: nat, x: int, y: int)
    requires x <= y
    ensures a * x <= a * y
    decreases a
  {
    if a > 0 {
      MulMonotone(a - 1, x, y);
      assert a * x == (a - 1) * x + x && a * y == (a - 1) * y + y;
    }
  }

  /** The score of two meaningful-word sets: 0 when both are empty, 100 when
      exactly one is, otherwise the rounded Jaccard distance clamped to
      [0, 100]. */
  function Score(words1: set<string>, words2: set<string>): (r: int)
    ensures 0 <= r <= 100
    ensures |words1| == 0 && |words2| == 0 ==> r == 0
    ensures (|words1| == 0) != (|words2| == 0) ==> r == 100
  {
    if |words1| == 0 && |words2| == 0 then 0
    else if |words1| == 0 || |words2| == 0 then 100
    else
      var inter := words1 * words2;
      var union := words1 + words2;
      SubsetCard(inter, union);
      SubsetCard(words1, union);
      var divergence := RoundedDistance(|inter|, |union|);
      Max(0, Min(100, divergence))
  }

  /** `calculateDivergence(original, backTranslated)`. */
  function Divergence(original: string, backTranslated: string): (r: int)
    ensures 0 <= r <= 100
    ensures |MeaningfulWords(original)| == 0 && |MeaningfulWords(backTranslated)| == 0 ==> r == 0
    ensures (|MeaningfulWords(original)| == 0) != (|MeaningfulWords(backTranslated)| == 0) ==> r == 100
  {
    Score(MeaningfulWords(original), MeaningfulWords(backTranslated))
  }

  function Max(a: int, b: int): int { if a >= b then a else b }
  function Min(a: int, b: int): int { if a <= b then a else b }

  lemma SubsetCard<T>(a: set<T>, b: set<T>)
    requires a <= b
    ensures |a| <= |b|
    ensures a < b ==> |a| < |b|
  {
    assert b == a + (b - a);
  }

  /** Cancelling a positive factor from a strict inequality. */
  lemma CancelLess(c: int, x: int, y: int)
    requires c > 0 && c * x < c * y
    ensures x < y
  {
    assert c * (y - x) == c * y - c * x;
  }

  /** A word set scores 0 against itself. */
  lemma ScoreSelf(w: set<string>)
    ensures Score(w, w) == 0
  {
    if |w| != 0 {
      var u := |w + w|;
      assert w * w == w + w;
      var d := RoundedDistance(u, u);
      assert 2 * u * d <= u < 2 * u * 1;
      CancelLess(2 * u, d, 1);
    }
  }

  /** Intersection and union are symmetric, and so is the score. */
  lemma ScoreSymmetric(wa: set<string>, wb: set<string>)
    ensures Score(wa, wb) == Score(wb, wa)
  {
    assert wa * wb == wb * wa;
    assert wa + wb == wb + wa;
  }

  /** Non-empty word sets with nothing in common score 100. */
  lemma ScoreDisjoint(wa: set<string>, wb: set<string>)
    requires |wa| != 0 && |wb| != 0 && wa * wb == {}
    ensures Score(wa, wb) == 100
  {
    var u := |wa + wb|;
    assert |wa * wb| == 0;
    SubsetCard(wa, wa + wb);
    var d := RoundedDistance(0, u);
    assert 2 * u * d <= 201 * u < 2 * u * (d + 1);
    assert 2 * u * d < 2 * u * 101;
    CancelLess(2 * u, d, 101);
    assert 2 * u * 100 < 2 * u * (d + 1);
    CancelLess(2 * u, 100, d + 1);
  }

  /** Overlapping, different word sets with fewer than 200 words between them
      score strictly between 0 and 100 (beyond that the rounding can reach
      either end). */
  lemma ScorePartial(wa: set<string>, wb: set<string>)
    requires wa * wb != {} && wa != wb && |wa + wb| < 200
    ensures 0 < Score(wa, wb) < 100
  {
    var inter, union := wa * wb, wa + wb;
    var i, u := |inter|, |union|;
    SubsetCard(inter, union);
    SubsetCard(wa, union);
    assert inter != union;
    assert i < u;
    assert i > 0 by { assert inter != {}; }
    assert |wa| != 0 && |wb| != 0 by { SubsetCard(inter, wa); SubsetCard(inter, wb); }
    var d := RoundedDistance(i, u);
    assert 2 * u * d <= 200 * (u - i) + u < 2 * u * (d + 1);
    assert 2 * u * 1 < 2 * u * (d + 1);
    CancelLess(2 * u, 1, d + 1);
    assert 2 * u * d < 2 * u * 100;
    CancelLess(2 * u, d, 100);
  }

  /** For two non-empty word sets the score is the Jaccard distance as a
      percentage, rounded to the nearest integer with halves rounded up. */
  lemma ScoreIsRoundedJaccardDistance(wa: set<string>, wb: set<string>)
    requires |wa| != 0 && |wb| != 0
    ensures var i, u := |wa * wb|, |wa + wb|;
            2 * u * Score(wa, wb) <= 200 * (u - i) + u < 2 * u * (Score(wa, wb) + 1)
  {
    SubsetCard(wa * wb, wa + wb);
    SubsetCard(wa, wa + wb);
    var d := RoundedDistance(|wa * wb|, |wa + wb|);
  }

  /** A text scores 0 against itself. */
  lemma DivergenceSelf(s: string)
    ensures Divergence(s, s) == 0
  {
    ScoreSelf(MeaningfulWords(s));
  }

  /** The score does not depend on which text is the original. */
  lemma DivergenceSymmetric(a: string, b: string)
    ensures Divergence(a, b) == Divergence(b, a)
  {
    ScoreSymmetric(MeaningfulWords(a), MeaningfulWords(b));
  }

  /** Texts that differ only in the case of ASCII letters score 0. */
  lemma DivergenceCaseInsensitive(a: string, b: string)
    requires ToLower(a) == ToLower(b)
    ensures Divergence(a, b) == 0
  {
    assert Normalize(a) == Normalize(b);
    ScoreSelf(MeaningfulWords(a));
  }

  /** Two texts with meaningful words but none in common score 100. */
  lemma DivergenceDisjoint(a: string, b: string)
    requires |MeaningfulWords(a)| != 0 && |MeaningfulWords(b)| != 0
    requires MeaningfulWords(a) * MeaningfulWords(b) == {}
    ensures Divergence(a, b) == 100
  {
    ScoreDisjoint(MeaningfulWords(a), MeaningfulWords(b));
  }

  /** Texts sharing some meaningful words but not all score strictly between
      0 and 100 when they have fewer than 200 meaningful words between them. */
  lemma DivergencePartial(a: string, b: string)
    requires MeaningfulWords(a) * MeaningfulWords(b) != {}
    requires MeaningfulWords(a) != MeaningfulWords(b)
    requires |MeaningfulWords(a) + MeaningfulWords(b)| < 200
    ensures 0 < Divergence(a, b) < 100
  {
    ScorePartial(MeaningfulWords(a), MeaningfulWords(b));
  }

  /** When both texts have meaningful words, the score is their rounded
      Jaccard distance. */
  lemma DivergenceIsRoundedJaccardDistance(a: string, b: string)
    requires |MeaningfulWords(a)| != 0 && |MeaningfulWords(b)| != 0
    ensures var i, u := |MeaningfulWords(a) * MeaningfulWords(b)|, |MeaningfulWords(a) + MeaningfulWords(b)|;
            2 * u * Divergence(a, b) <= 200 * (u - i) + u < 2 * u * (Divergence(a, b) + 1)
  {
    ScoreIsRoundedJaccardDistance(MeaningfulWords(a), MeaningfulWords(b));
  }

  /** The empty text has no meaningful words, so two empty texts score 0. */
  lemma DivergenceEmpty()
    ensures |MeaningfulWords("")| == 0
    ensures Divergence("", "") == 0
  {
    assert ToLower("") == "";
    assert ReplaceSymbols("") == "";
    assert CollapseSpaces("") == "";
    assert Trim("") == "";
    assert Normalize("") == "";
    assert Split("", ' ') == [""];
    assert Words("") == [""];
    assert MeaningfulWords("") == {};
  }

  /** A text whose every word is a stop word or at most two characters long
      scores like the empty text. */
  lemma FillerTextScoresAsEmpty(a: string, b: string)
    requires forall w :: w in Words(a) ==> |w| <= 2 || w in StopWords
    ensures Divergence(a, b) == Divergence("", b)
  {
    assert MeaningfulWords(a) == {};
    DivergenceEmpty();
    assert MeaningfulWords("") == {};
  }

  /** Stop words and words of at most two characters do not count: a text of
      single-spaced lower-case words scores the same with any such filler
      words added, anywhere and any number of times. */
  lemma DivergenceIgnoresFillerWords(ws: seq<string>, more: seq<string>, b: string)
    requires PlainWords(ws) && PlainWords(more)
    requires forall w :: w in ws ==> w in more
    requires forall w :: w in more && w !in ws ==> |w| <= 2 || w in StopWords
    ensures Divergence(Join(more, ' '), b) == Divergence(Join(ws, ' '), b)
  {
    MeaningfulWordsOfPlainWords(ws);
    MeaningfulWordsOfPlainWords(more);
    assert MeaningfulWords(Join(more, ' ')) == MeaningfulWords(Join(ws, ' '));
  }

  /** Inserting one filler word at position `k` leaves the score unchanged. */
  lemma InsertFillerWord(ws: seq<string>, k: nat, f: string, b: string)
    requires PlainWords(ws) && k <= |ws|
    requires f != [] && IsLowerWord(f) && (|f| <= 2 || f in StopWords)
    ensures Divergence(Join(ws[..k] + [f] + ws[k..], ' '), b) == Divergence(Join(ws, ' '), b)
  {
    InsertedWords(ws, k, f);
    DivergenceIgnoresFillerWords(ws, ws[..k] + [f] + ws[k..], b);
  }

  /** The word list with `f` inserted holds the old words and `f`. */
  lemma InsertedWords(ws: seq<string>, k: nat, f: string)
    requires PlainWords(ws) && k <= |ws|
    requires f != [] && IsLowerWord(f)
    ensures PlainWords(ws[..k] + [f] + ws[k..])
    ensures forall w :: w in ws ==> w in ws[..k] + [f] + ws[k..]
    ensures forall w :: w in ws[..k] + [f] + ws[k..] ==> w in ws || w == f
  {
    var more := ws[..k] + [f] + ws[k..];
    assert ws == ws[..k] + ws[k..];
    assert forall w :: w in more <==> w in ws[..k] || w == f || w in ws[k..];
  }

  /** The pair "The quick brown fox" / "The quick brown dog": three meaningful
      words each, two shared, so the Jaccard distance is exactly one half. */
  lemma QuickBrownFoxAndDog(a: string, b: string)
    requires a == "The quick brown fox" && b == "The quick brown dog"
    ensures MeaningfulWords(a) == {"quick", "brown", "fox"}
    ensures MeaningfulWords(b) == {"quick", "brown", "dog"}
    ensures Divergence(a, b) == 50
  {
    QuickBrownMeaningful(a, "fox");
    QuickBrownMeaningful(b, "dog");
    QuickBrownScore();
  }

  /** Two one-word texts with different content words meet the requirements
      of `DivergenceDisjoint` and score 100. */
  lemma FoxAgainstDog(a: string, b: string)
    requires a == "fox" && b == "dog"
    ensures MeaningfulWords(a) == {"fox"} && MeaningfulWords(b) == {"dog"}
    ensures Divergence(a, b) == 100
  {
    OneContentWord(a);
    OneContentWord(b);
    DivergenceDisjoint(a, b);
  }

  lemma OneContentWord(t: string)
    requires t == "fox" || t == "dog"
    ensures MeaningfulWords(t) == {t}
  {
    assert Join([t], ' ') == t;
    MeaningfulWordsOfPlainWords([t]);
    NotStopWord(t);
  }

  lemma QuickBrownMeaningful(t: string, x: string)
    requires x == "fox" || x == "dog"
    requires t == "The quick brown " + x
    ensures MeaningfulWords(t) == {"quick", "brown", x}
  {
    var ws := ["the", "quick", "brown", x];
    QuickBrownLower(t, x);
    MeaningfulWordsUpToCase(t, ws);
    QuickBrownFilter(x);
  }

  lemma QuickBrownFilter(x: string)
    requires x == "fox" || x == "dog"
    ensures (set w | w in ["the", "quick", "brown", x] && |w| > 2 && w !in StopWords) == {"quick", "brown", x}
  {
    assert "the" in StopWords;
    NotStopWord("quick");
    NotStopWord("brown");
    NotStopWord(x);
  }

  /** The content words of the test pair are not stop words. */
  lemma NotStopWord(w: string)
    requires w == "quick" || w == "brown" || w == "fox" || w == "dog"
    ensures w !in StopWords
  {
    StopWordsInHalves();
    assert w !in FirstStopWords;
    assert w !in LastStopWords;
  }

  /** The stop-word list in two halves, which lets the solver decide
      membership one half at a time. */
  ghost const FirstStopWords: set<string> := {
    "a", "an", "and", "are", "as", "at", "be", "by", "for", "from",
    "has", "he", "in", "is", "it", "its", "of", "on", "that", "the",
    "to", "was", "will", "with", "this", "but", "they", "have", "had"
  }

  ghost const LastStopWords: set<string> := {
    "what", "when", "where", "who", "which", "why", "how", "or", "can", "could",
    "would", "should", "may", "might", "must", "shall", "i", "you", "we", "my",
    "your", "our", "me", "him", "her", "us", "them"
  }

  lemma StopWordsInHalves()
    ensures StopWords == FirstStopWords + LastStopWords
  {
  }

  lemma QuickBrownLower(t: string, x: string)
    requires x == "fox" || x == "dog"
    requires t == "The quick brown " + x
    ensures ToLower(t) == Join(["the", "quick", "brown", x], ' ')
  {
    var head := "The quick brown ";
    assert ToLower(head) == "the quick brown ";
    assert ToLower(x) == x;
    ToLowerConcat(head, x);
    QuickBrownJoin(x);
  }

  lemma QuickBrownJoin(x: string)
    ensures Join(["the", "quick", "brown", x], ' ') == "the quick brown " + x
  {
    assert Join([x], ' ') == x;
    assert Join(["brown", x], ' ') == "brown" + " " + x;
    assert Join(["quick", "brown", x], ' ') == "quick" + " " + ("brown" + " " + x);
    assert Join(["the", "quick", "brown", x], ' ') == "the" + " " + ("quick" + " " + ("brown" + " " + x));
  }

  lemma QuickBrownScore()
    ensures Score({"quick", "brown", "fox"}, {"quick", "brown", "dog"}) == 50
  {
    var w1: set<string>, w2: set<string> := {"quick", "brown", "fox"}, {"quick", "brown", "dog"};
    assert w1 * w2 == {"quick", "brown"};
    assert w1 + w2 == {"quick", "brown", "fox", "dog"};
  }

  // ---------------------------------------------------------------------
  // generateRandomChain

  /** `codes.filter(l => l !== x)`. */
  function Without(codes: seq<LanguageCode>, x: LanguageCode): (r: seq<LanguageCode>)
    ensures forall c :: c in r <==> c in codes && c != x
    ensures |r| <= |codes|
  {
    if codes == [] then []
    else if codes[0] == x then Without(codes[1..], x)
    else [codes[0]] + Without(codes[1..], x)
  }

  /** Removing a code that occurs once leaves one entry fewer. */
  lemma {:induction false} WithoutDistinct(codes: seq<LanguageCode>, x: LanguageCode)
    requires Distinct(codes) && x in codes
    ensures |Without(codes, x)| == |codes| - 1
  {
    if codes[0] == x {
      assert forall j :: 0 <= j < |codes[1..]| ==> codes[1..][j] == codes[j + 1] != x;
      WithoutAbsent(codes[1..], x);
    } else {
      assert x in codes[1..];
      WithoutDistinct(codes[1..], x);
    }
  }

  lemma {:induction false} WithoutAbsent(codes: seq<LanguageCode>, x: LanguageCode)
    requires x !in codes
    ensures Without(codes, x) == codes
  {
    if codes != [] {
      WithoutAbsent(codes[1..], x);
    }
  }

  /** Removing any single string from the catalog leaves at least 31 codes
      to draw from. */
  lemma CatalogPoolSize(x: LanguageCode)
    ensures |Without(Codes(), x)| >= 31
  {
    CatalogCodesDistinct();
    if x in Codes() {
      WithoutDistinct(Codes(), x);
    } else {
      WithoutAbsent(Codes(), x);
    }
  }

  /** A start language counts as given when it is present and not empty
      (JavaScript truthiness of the optional string). */
  predicate Given(start: Option<LanguageCode>) {
    start.Some? && start.value != ""
  }

  /** The candidates for the first hop: the catalog without the start
      language when one is given. */
  function InitialOptions(start: Option<LanguageCode>): (r: seq<LanguageCode>)
    ensures |r| >= 31
    ensures forall c :: c in r ==> c in Codes()
    ensures Given(start) ==> start.value !in r
  {
    CatalogPoolSize(if Given(start) then start.value else "");
    if Given(start) then Without(Codes(), start.value) else Codes()
  }

  /** The candidates after `chain`: before the first draw the initial options,
      afterwards the catalog without the code just drawn. */
  function Options(chain: seq<LanguageCode>, start: Option<LanguageCode>): (r: seq<LanguageCode>)
    ensures |r| >= 31
    ensures forall c :: c in r ==> c in Codes()
    ensures chain != [] ==> chain[|chain| - 1] !in r
    ensures chain == [] && Given(start) ==> start.value !in r
  {
    if chain == [] then InitialOptions(start)
    else
      CatalogPoolSize(chain[|chain| - 1]);
      Without(Codes(), chain[|chain| - 1])
  }

  /** A value of `Math.random()`: a real in [0, 1). */
  ghost predicate RandomSource(random: nat -> real) {
    forall i: nat :: 0.0 <= random(i) < 1.0
  }

  /** `Math.floor(r * n)`: an index into a pool of `n` options. */
  function DrawIndex(r: real, n: nat): (i: nat)
    requires 0.0 <= r < 1.0 && n > 0
    ensures i < n
  {
    var x := r * n as real;
    assert x < n as real by { assert (1.0 - r) * n as real > 0.0; }
    x.Floor
  }

  /** The chain `generateRandomChain(length, start)` returns when the i-th
      call to `Math.random()` returns `random(i)`. Every code is a catalog
      code, no two neighbours are equal, and the first hop is not the given
      start language. */
  function RandomChain(length: nat, start: Option<LanguageCode>, random: nat -> real): (chain: seq<LanguageCode>)
    requires RandomSource(random)
    ensures |chain| == length
    ensures forall i :: 0 <= i < length ==> chain[i] in Codes()
    ensures forall i :: 0 < i < length ==> chain[i] != chain[i - 1]
    ensures length > 0 && Given(start) ==> chain[0] != start.value
  {
    if length == 0 then []
    else
      var prefix := RandomChain(length - 1, start, random);
      var options := Options(prefix, start);
      prefix + [options[DrawIndex(random(length - 1), |options|)]]
  }

  /** `generateRandomChain`: a loop that draws one code per hop and then
      resets the pool to the catalog minus the code just drawn. */
  method GenerateRandomChain(length: nat, start: Option<LanguageCode>, random: nat -> real)
    returns (chain: seq<LanguageCode>)
    requires RandomSource(random)
    ensures chain == RandomChain(length, start, random)
  {
    var available := Codes();
    chain := [];
    var options := if Given(start) then Without(available, start.value) else available;
    for i := 0 to length
      invariant chain == RandomChain(i, start, random)
      invariant options == Options(chain, start)
    {
      var selected := options[DrawIndex(random(i), |options|)];
      chain := chain + [selected];
      options := Without(available, selected);
    }
  }
}
