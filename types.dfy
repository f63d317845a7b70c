/** The data shapes and the language catalog of lib/types.ts. */
module Types {
  import opened Wrappers

  /** A language code is a free-form string (the source's `LanguageCode = string`). */
  type LanguageCode = string

  /** One row of `SUPPORTED_LANGUAGES`. */
  datatype Language = Language(code: LanguageCode, name: string)

  /** One hop of a chain (`TranslationStep`). */
  datatype TranslationStep = TranslationStep(
    text: string,
    language: LanguageCode,
    languageName: string,
    step: int,
    backTranslation: string,
    divergence: int)

  /** The result of a whole chain (`TranslationChainResult`). */
  datatype TranslationChainResult = TranslationChainResult(
    original: string,
    originalLanguage: LanguageCode,
    originalLanguageName: string,
    steps: seq<TranslationStep>,
    finalText: string,
    totalSteps: int)

  /** The `type` tag of a stream message. */
  datatype ProgressKind = ProgressType | CompleteType | ErrorType

  /** A stream message (`TranslationProgress`): a tag and optional fields. */
  datatype TranslationProgress = TranslationProgress(
    kind: ProgressKind,
    currentStep: Option<int>,
    totalSteps: Option<int>,
    step: Option<TranslationStep>,
    result: Option<TranslationChainResult>,
    error: Option<string>)

  /** `SUPPORTED_LANGUAGES`, in the source's order. The NB name keeps the
      two characters U+221A and U+2022 that the source holds where "å" was
      evidently meant (a mis-encoding), since that is what it returns. */
  const SupportedLanguages: seq<Language> := [
    Language("EN-US", "English (US)"),
    Language("EN-GB", "English (UK)"),
    Language("DE", "German"),
    Language("FR", "French"),
    Language("ES", "Spanish"),
    Language("IT", "Italian"),
    Language("PT-PT", "Portuguese (European)"),
    Language("PT-BR", "Portuguese (Brazilian)"),
    Language("NL", "Dutch"),
    Language("PL", "Polish"),
    Language("RU", "Russian"),
    Language("JA", "Japanese"),
    Language("ZH-HANS", "Chinese (Simplified)"),
    Language("KO", "Korean"),
    Language("SV", "Swedish"),
    Language("DA", "Danish"),
    Language("FI", "Finnish"),
    Language("NB", "Norwegian (Bokm\U{221A}\U{2022}l)"),
    Language("CS", "Czech"),
    Language("EL", "Greek"),
    Language("HU", "Hungarian"),
    Language("RO", "Romanian"),
    Language("TR", "Turkish"),
    Language("ID", "Indonesian"),
    Language("BG", "Bulgarian"),
    Language("SK", "Slovak"),
    Language("LT", "Lithuanian"),
    Language("LV", "Latvian"),
    Language("ET", "Estonian"),
    Language("SL", "Slovenian"),
    Language("UK", "Ukrainian"),
    Language("AR", "Arabic")
  ]

  /** `SUPPORTED_LANGUAGES.map(l => l.code)`. */
  function Codes(): (codes: seq<LanguageCode>)
    ensures |codes| == |SupportedLanguages|
    ensures forall i :: 0 <= i < |codes| ==> codes[i] == SupportedLanguages[i].code
  {
    seq(|SupportedLanguages|, i requires 0 <= i < |SupportedLanguages| => SupportedLanguages[i].code)
  }

  predicate Distinct<T(==)>(s: seq<T>) {
    forall i, j :: 0 <= i < j < |s| ==> s[i] != s[j]
  }

  /** The catalog's codes in four runs of eight: comparing codes within a
      short run is far cheaper for the solver than indexing the whole list. */
  const CodeRun0: seq<LanguageCode> := ["EN-US", "EN-GB", "DE", "FR", "ES", "IT", "PT-PT", "PT-BR"]
  const CodeRun1: seq<LanguageCode> := ["NL", "PL", "RU", "JA", "ZH-HANS", "KO", "SV", "DA"]
  const CodeRun2: seq<LanguageCode> := ["FI", "NB", "CS", "EL", "HU", "RO", "TR", "ID"]
  const CodeRun3: seq<LanguageCode> := ["BG", "SK", "LT", "LV", "ET", "SL", "UK", "AR"]

  /** Run `k` lists the codes at positions `8 * k` to `8 * k + 7`. */
  predicate RunAt(k: nat, run: seq<LanguageCode>) {
    && 8 * k + |run| <= |SupportedLanguages|
    && forall i :: 0 <= i < |run| ==> SupportedLanguages[8 * k + i].code == run[i]
  }

  lemma Run0At() ensures RunAt(0, CodeRun0) {
    assert forall i :: 0 <= i < 8 ==> SupportedLanguages[i].code == CodeRun0[i];
  }
  lemma Run1At() ensures RunAt(1, CodeRun1) {
    assert forall i :: 0 <= i < 8 ==> SupportedLanguages[8 + i].code == CodeRun1[i];
  }
  lemma Run2At() ensures RunAt(2, CodeRun2) {
    assert forall i :: 0 <= i < 8 ==> SupportedLanguages[16 + i].code == CodeRun2[i];
  }
  lemma Run3At() ensures RunAt(3, CodeRun3) {
    assert forall i :: 0 <= i < 8 ==> SupportedLanguages[24 + i].code == CodeRun3[i];
  }

  lemma CodesAreRuns()
    ensures Codes() == CodeRun0 + CodeRun1 + CodeRun2 + CodeRun3
  {
    Run0At();
    Run1At();
    Run2At();
    Run3At();
    var runs := CodeRun0 + CodeRun1 + CodeRun2 + CodeRun3;
    forall i | 0 <= i < 32 ensures Codes()[i] == runs[i] {
      if i < 8 {
        assert runs[i] == CodeRun0[i];
      } else if i < 16 {
        assert runs[i] == CodeRun1[i - 8];
      } else if i < 24 {
        assert runs[i] == CodeRun2[i - 16];
      } else {
        assert runs[i] == CodeRun3[i - 24];
      }
    }
  }

  /** No element of `a` occurs in `b`. */
  predicate Apart<T(==)>(a: seq<T>, b: seq<T>) {
    forall i, j :: 0 <= i < |a| && 0 <= j < |b| ==> a[i] != b[j]
  }

  lemma DistinctConcat<T>(a: seq<T>, b: seq<T>)
    requires Distinct(a) && Distinct(b) && Apart(a, b)
    ensures Distinct(a + b)
  {
    forall i, j | 0 <= i < j < |a + b| ensures (a + b)[i] != (a + b)[j] {
      if j < |a| {
        assert (a + b)[i] == a[i] && (a + b)[j] == a[j];
      } else if i < |a| {
        assert (a + b)[i] == a[i] && (a + b)[j] == b[j - |a|];
      } else {
        assert (a + b)[i] == b[i - |a|] && (a + b)[j] == b[j - |a|];
      }
    }
  }

  lemma ApartConcat<T>(a: seq<T>, b: seq<T>, c: seq<T>)
    requires Apart(a, c) && Apart(b, c)
    ensures Apart(a + b, c)
  {
    forall i, j | 0 <= i < |a + b| && 0 <= j < |c| ensures (a + b)[i] != c[j] {
      if i < |a| {
        assert (a + b)[i] == a[i];
      } else {
        assert (a + b)[i] == b[i - |a|];
      }
    }
  }

  lemma RunsDistinct()
    ensures Distinct(CodeRun0) && Distinct(CodeRun1) && Distinct(CodeRun2) && Distinct(CodeRun3)
  {
  }

  lemma RunsApartFromFirst()
    ensures Apart(CodeRun0, CodeRun1) && Apart(CodeRun0, CodeRun2) && Apart(CodeRun0, CodeRun3)
  {
  }

  lemma LaterRunsApart()
    ensures Apart(CodeRun1, CodeRun2) && Apart(CodeRun1, CodeRun3) && Apart(CodeRun2, CodeRun3)
  {
  }

  /** The catalog has 32 entries and no code is listed twice. */
  lemma CatalogCodesDistinct()
    ensures |Codes()| == 32
    ensures Distinct(Codes())
  {
    CodesAreRuns();
    RunsDistinct();
    RunsApartFromFirst();
    LaterRunsApart();
    DistinctConcat(CodeRun0, CodeRun1);
    ApartConcat(CodeRun0, CodeRun1, CodeRun2);
    DistinctConcat(CodeRun0 + CodeRun1, CodeRun2);
    ApartConcat(CodeRun0, CodeRun1, CodeRun3);
    ApartConcat(CodeRun0 + CodeRun1, CodeRun2, CodeRun3);
    DistinctConcat(CodeRun0 + CodeRun1 + CodeRun2, CodeRun3);
  }

  /** Every catalog entry has a non-empty display name. */
  lemma CatalogNamesNonEmpty()
    ensures forall i :: 0 <= i < |SupportedLanguages| ==> SupportedLanguages[i].name != ""
  {
  }

  /** No catalog code is the empty string. */
  lemma CatalogCodesNonEmpty()
    ensures [] !in Codes()
  {
    assert forall i :: 0 <= i < |SupportedLanguages| ==> SupportedLanguages[i].code != [];
  }
}
