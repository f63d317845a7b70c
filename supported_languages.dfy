/** The `GET` handler of app/api/supported-languages/route.ts: the list of
    interface languages built from the provider's target languages. Each
    provider code is simplified, given a display name, deduplicated by
    simplified code (first entry wins) and the list is sorted by name. */
module LanguageList {
  import opened Wrappers
  import opened Text

  /** A target language as the provider reports it. */
  datatype ProviderLanguage = ProviderLanguage(code: string, name: string)

  /** An entry of the answer: the simplified code, the display name and the
      provider's own code. */
  datatype UiLanguage = UiLanguage(code: string, name: string, deeplCode: string)

  datatype LanguagesResponse =
    | LanguagesError(status: int, error: string)
    | LanguagesList(languages: seq<UiLanguage>)

  const KeyRequired := "API key required"
  const FetchFailed := "Failed to fetch languages"

  /** `nativeNames`: the endonym of each simplified code. */
  const NativeNames: map<string, string> := map[
    "ar" := "العربية", "bg" := "Български", "zh" := "中文", "cs" := "Čeština",
    "da" := "Dansk", "nl" := "Nederlands", "en" := "English", "et" := "Eesti",
    "fi" := "Suomi", "fr" := "Français", "de" := "Deutsch", "el" := "Ελληνικά",
    "he" := "עברית", "hu" := "Magyar", "id" := "Bahasa Indonesia", "it" := "Italiano",
    "ja" := "日本語", "ko" := "한국어", "lv" := "Latviešu", "lt" := "Lietuvių",
    "nb" := "Norsk", "pl" := "Polski", "pt" := "Português", "ro" := "Română",
    "ru" := "Русский", "sk" := "Slovenčina", "sl" := "Slovenščina", "es" := "Español",
    "sv" := "Svenska", "th" := "ไทย", "tr" := "Türkçe", "uk" := "Українська",
    "vi" := "Tiếng Việt"]

  // ---------------------------------------------------------------------
  // The mapping of one provider language

  /** Lower-case the provider code, then collapse every English, Portuguese
      and Chinese variant to its bare language. */
  function SimplifyCode(deeplCode: string): (code: string)
    ensures forall i :: 0 <= i < |code| ==> !IsUpperAscii(code[i])
    ensures StartsWith(ToLower(deeplCode), "en-") ==> code == "en"
    ensures StartsWith(ToLower(deeplCode), "pt-") ==> code == "pt"
    ensures StartsWith(ToLower(deeplCode), "zh-") ==> code == "zh"
    ensures (!StartsWith(ToLower(deeplCode), "en-") && !StartsWith(ToLower(deeplCode), "pt-")
             && !StartsWith(ToLower(deeplCode), "zh-")) ==> code == ToLower(deeplCode)
  {
    var code := ToLower(deeplCode);
    if StartsWith(code, "en-") then "en"
    else if StartsWith(code, "pt-") then "pt"
    else if StartsWith(code, "zh-") then "zh"
    else code
  }

  /** Simplifying a simplified code changes nothing. */
  lemma SimplifyCodeIdempotent(deeplCode: string)
    ensures SimplifyCode(SimplifyCode(deeplCode)) == SimplifyCode(deeplCode)
  {
    var code := SimplifyCode(deeplCode);
    ToLowerIdempotent(deeplCode);
    assert ToLower(code) == code;
    assert !StartsWith(code, "en-") && !StartsWith(code, "pt-") && !StartsWith(code, "zh-") by {
      if code != ToLower(deeplCode) {
        assert |code| == 2;
      }
    }
  }

  /** Provider codes that differ only in ASCII letter case simplify alike. */
  lemma SimplifyCodeCaseInsensitive(a: string, b: string)
    requires ToLower(a) == ToLower(b)
    ensures SimplifyCode(a) == SimplifyCode(b)
  {
  }

  /** `displayName`: "<native> (<provider name>)" for a code with an endonym,
      the provider's name otherwise. */
  function DisplayName(code: string, providerName: string): (name: string)
    ensures code in NativeNames ==> name == NativeNames[code] + " (" + providerName + ")"
    ensures code !in NativeNames ==> name == providerName
  {
    if code in NativeNames && NativeNames[code] != "" then NativeNames[code] + " (" + providerName + ")"
    else providerName
  }

  /** Recovers the provider's name from a display name: strips the endonym
      and the parentheses around the rest. */
  function ProviderNameOf(code: string, name: string): string {
    if code in NativeNames && |NativeNames[code]| + 3 <= |name| then name[|NativeNames[code]| + 2..|name| - 1]
    else name
  }

  /** The display name loses nothing: the provider's name can be read back
      from it. */
  lemma DisplayNameRoundTrip(code: string, providerName: string)
    ensures ProviderNameOf(code, DisplayName(code, providerName)) == providerName
  {
    if code in NativeNames {
      var native := NativeNames[code];
      var name := DisplayName(code, providerName);
      assert name == native + " (" + providerName + ")";
      assert name[|native| + 2..|name| - 1] == providerName;
    }
  }

  /** The `.map` callback. */
  function MapLanguage(lang: ProviderLanguage): (u: UiLanguage)
    ensures u.code == SimplifyCode(lang.code)
    ensures u.deeplCode == lang.code
    ensures u.name == DisplayName(u.code, lang.name)
  {
    var code := SimplifyCode(lang.code);
    UiLanguage(code, DisplayName(code, lang.name), lang.code)
  }

  function UiLanguages(targets: seq<ProviderLanguage>): (r: seq<UiLanguage>)
    ensures |r| == |targets|
    ensures forall i :: 0 <= i < |targets| ==> r[i] == MapLanguage(targets[i])
  {
    seq(|targets|, i requires 0 <= i < |targets| => MapLanguage(targets[i]))
  }

  // ---------------------------------------------------------------------
  // Deduplication by code

  function CodeSet(langs: seq<UiLanguage>): set<string> {
    set l | l in langs :: l.code
  }

  /** The entries that the `seen`-set filter lets through: each entry whose
      code did not occur earlier. */
  function FirstOfEach(langs: seq<UiLanguage>): (r: seq<UiLanguage>)
    ensures |r| <= |langs|
    decreases |langs|
  {
    if langs == [] then []
    else
      var prev := FirstOfEach(langs[..|langs| - 1]);
      var last := langs[|langs| - 1];
      if last.code in CodeSet(prev) then prev else prev + [last]
  }

  predicate DistinctCodes(langs: seq<UiLanguage>) {
    forall i, j :: 0 <= i < j < |langs| ==> langs[i].code != langs[j].code
  }

  /** `x` occurs in `langs`, and no entry before it has its code. */
  predicate IsFirstWithCode(langs: seq<UiLanguage>, x: UiLanguage) {
    exists i :: 0 <= i < |langs| && langs[i] == x && forall j :: 0 <= j < i ==> langs[j].code != x.code
  }

  predicate AllFirst(langs: seq<UiLanguage>, r: seq<UiLanguage>) {
    forall k :: 0 <= k < |r| ==> IsFirstWithCode(langs, r[k])
  }

  /** The deduplicated list has pairwise distinct codes, keeps every code of
      the input, and holds for each code the first input entry with it. */
  lemma FirstOfEachSpec(langs: seq<UiLanguage>)
    ensures DistinctCodes(FirstOfEach(langs))
    ensures CodeSet(FirstOfEach(langs)) == CodeSet(langs)
    ensures AllFirst(langs, FirstOfEach(langs))
  {
    FirstOfEachDistinct(langs);
    FirstOfEachCodes(langs);
    FirstOfEachFirsts(langs);
  }

  lemma {:induction false} FirstOfEachCodes(langs: seq<UiLanguage>)
    ensures CodeSet(FirstOfEach(langs)) == CodeSet(langs)
    decreases |langs|
  {
    if langs != [] {
      var init := langs[..|langs| - 1];
      var last := langs[|langs| - 1];
      FirstOfEachCodes(init);
      var prev := FirstOfEach(init);
      assert langs == init + [last];
      assert CodeSet(langs) == CodeSet(init) + {last.code};
      if last.code !in CodeSet(prev) {
        assert CodeSet(prev + [last]) == CodeSet(prev) + {last.code};
      }
    }
  }

  lemma {:induction false} FirstOfEachDistinct(langs: seq<UiLanguage>)
    ensures DistinctCodes(FirstOfEach(langs))
    decreases |langs|
  {
    if langs != [] {
      var init := langs[..|langs| - 1];
      var last := langs[|langs| - 1];
      FirstOfEachDistinct(init);
      var prev := FirstOfEach(init);
      if last.code !in CodeSet(prev) {
        var r := prev + [last];
        forall i, j | 0 <= i < j < |r|
          ensures r[i].code != r[j].code
        {
          if j == |prev| {
            assert r[i] in prev;
          }
        }
      }
    }
  }

  lemma {:induction false} FirstOfEachFirsts(langs: seq<UiLanguage>)
    ensures AllFirst(langs, FirstOfEach(langs))
    decreases |langs|
  {
    if langs != [] {
      var init := langs[..|langs| - 1];
      var last := langs[|langs| - 1];
      FirstOfEachFirsts(init);
      var prev := FirstOfEach(init);
      forall k | 0 <= k < |prev|
        ensures IsFirstWithCode(langs, prev[k])
      {
        assert IsFirstWithCode(init, prev[k]);
        var i :| 0 <= i < |init| && init[i] == prev[k] && forall j :: 0 <= j < i ==> init[j].code != prev[k].code;
        assert langs[i] == prev[k];
      }
      if last.code !in CodeSet(prev) {
        FirstOfEachCodes(init);
        var r := prev + [last];
        forall j | 0 <= j < |init|
          ensures init[j].code != last.code
        {
          assert init[j].code in CodeSet(init);
        }
        assert IsFirstWithCode(langs, last) by {
          assert langs[|langs| - 1] == last;
        }
        forall k | 0 <= k < |r|
          ensures IsFirstWithCode(langs, r[k])
        {
          if k < |prev| { assert r[k] == prev[k]; }
        }
      }
    }
  }

  /** The `filter` over a `seen` set. */
  method Dedup(langs: seq<UiLanguage>) returns (unique: seq<UiLanguage>)
    ensures unique == FirstOfEach(langs)
  {
    var seen: set<string> := {};
    unique := [];
    for i := 0 to |langs|
      invariant unique == FirstOfEach(langs[..i])
      invariant seen == CodeSet(unique)
    {
      var lang := langs[i];
      assert langs[..i + 1][..i] == langs[..i];
      if lang.code !in seen {
        seen := seen + {lang.code};
        unique := unique + [lang];
      }
    }
    assert langs[..|langs|] == langs;
  }

  // ---------------------------------------------------------------------
  // Sorting by name

  /** Lexicographic order on code points. */
  predicate LexLeq(a: string, b: string)
    decreases |a|
  {
    a == [] || (b != [] && (a[0] < b[0] || (a[0] == b[0] && LexLeq(a[1..], b[1..]))))
  }

  lemma {:induction false} LexLeqTotal(a: string, b: string)
    ensures LexLeq(a, b) || LexLeq(b, a)
    decreases |a|
  {
    if a != [] && b != [] && a[0] == b[0] {
      LexLeqTotal(a[1..], b[1..]);
    }
  }

  lemma {:induction false} LexLeqTransitive(a: string, b: string, c: string)
    requires LexLeq(a, b) && LexLeq(b, c)
    ensures LexLeq(a, c)
    decreases |a|
  {
    if a != [] && b != [] && c != [] && a[0] == b[0] && b[0] == c[0] {
      LexLeqTransitive(a[1..], b[1..], c[1..]);
    }
  }

  lemma {:induction false} LexLeqAntisymmetric(a: string, b: string)
    requires LexLeq(a, b) && LexLeq(b, a)
    ensures a == b
    decreases |a|
  {
    if a != [] {
      LexLeqAntisymmetric(a[1..], b[1..]);
      assert a == [a[0]] + a[1..] && b == [b[0]] + b[1..];
    }
  }

  /** Each entry's name is at most the next one's. */
  predicate SortedByName(s: seq<UiLanguage>) {
    forall i :: 0 < i < |s| ==> LexLeq(s[i - 1].name, s[i].name)
  }

  /** A list sorted entry to entry is sorted pair by pair. */
  lemma {:induction false} SortedByNamePairwise(s: seq<UiLanguage>, i: nat, j: nat)
    requires SortedByName(s)
    requires i <= j < |s|
    ensures LexLeq(s[i].name, s[j].name)
    decreases j - i
  {
    if i == j {
      LexLeqReflexive(s[i].name);
    } else {
      SortedByNamePairwise(s, i, j - 1);
      LexLeqTransitive(s[i].name, s[j - 1].name, s[j].name);
    }
  }

  lemma {:induction false} LexLeqReflexive(a: string)
    ensures LexLeq(a, a)
    decreases |a|
  {
    if a != [] {
      LexLeqReflexive(a[1..]);
    }
  }

  /** `uniqueLanguages.sort(...)`: an in-place sort by name, written as
      insertion by adjacent swaps. */
  method SortByName(a: array<UiLanguage>)
    modifies a
    ensures SortedByName(a[..])
    ensures multiset(a[..]) == multiset(old(a[..]))
  {
    for i := 0 to a.Length
      invariant SortedByName(a[..i])
      invariant multiset(a[..]) == multiset(old(a[..]))
    {
      SinkEntry(a, i);
    }
    assert a[..a.Length] == a[..];
  }

  /** One insertion step: entry `i` is swapped leftwards past every entry
      whose name is greater, so the first `i + 1` entries end sorted. */
  method SinkEntry(a: array<UiLanguage>, i: int)
    requires 0 <= i < a.Length
    requires SortedByName(a[..i])
    modifies a
    ensures SortedByName(a[..i + 1])
    ensures multiset(a[..]) == multiset(old(a[..]))
  {
    var j := i;
    while j > 0 && !LexLeq(a[j - 1].name, a[j].name)
      invariant 0 <= j <= i
      invariant SortedByName(a[..j])
      invariant SortedByName(a[j..i + 1])
      invariant 0 < j < i ==> LexLeq(a[j - 1].name, a[j + 1].name)
      invariant multiset(a[..]) == multiset(old(a[..]))
    {
      LexLeqTotal(a[j - 1].name, a[j].name);
      ghost var before := a[..];
      SwapStep(before, i, j);
      SwapKeepsMultiset(before, j - 1, j);
      a[j - 1], a[j] := a[j], a[j - 1];
      assert a[..] == before[j - 1 := before[j]][j := before[j - 1]];
      j := j - 1;
    }
    JoinSorted(a[..], i, j);
  }

  /** Exchanging two entries keeps the same entries. */
  lemma SwapKeepsMultiset(s: seq<UiLanguage>, x: int, y: int)
    requires 0 <= x < |s| && 0 <= y < |s|
    ensures multiset(s[x := s[y]][y := s[x]]) == multiset(s)
  {
  }

  /** Swapping an out-of-order neighbour pair moves the gap one step left. */
  lemma SwapStep(s: seq<UiLanguage>, i: int, j: int)
    requires 0 < j <= i < |s|
    requires SortedByName(s[..j]) && SortedByName(s[j..i + 1])
    requires 0 < j < i ==> LexLeq(s[j - 1].name, s[j + 1].name)
    requires LexLeq(s[j].name, s[j - 1].name)
    ensures var t := s[j - 1 := s[j]][j := s[j - 1]];
      && SortedByName(t[..j - 1])
      && SortedByName(t[j - 1..i + 1])
      && (0 < j - 1 < i ==> LexLeq(t[j - 2].name, t[j].name))
  {
    var t := s[j - 1 := s[j]][j := s[j - 1]];
    assert t[..j - 1] == s[..j - 1];
    var u := t[j - 1..i + 1];
    var r := s[j..i + 1];
    forall k | 0 < k < |u|
      ensures LexLeq(u[k - 1].name, u[k].name)
    {
      if k == 1 {
        assert u[0] == s[j] && u[1] == s[j - 1];
      } else if k == 2 {
        assert u[1] == s[j - 1] && u[2] == s[j + 1];
      } else {
        assert u[k - 1] == r[k - 2] && u[k] == r[k - 1];
      }
    }
    if 0 < j - 1 {
      var p := s[..j];
      assert p[j - 2] == s[j - 2] && p[j - 1] == s[j - 1];
    }
  }

  /** Two sorted runs meeting in order form one sorted run. */
  lemma JoinSorted(s: seq<UiLanguage>, i: int, j: int)
    requires 0 <= j <= i < |s|
    requires SortedByName(s[..j]) && SortedByName(s[j..i + 1])
    requires j > 0 ==> LexLeq(s[j - 1].name, s[j].name)
    ensures SortedByName(s[..i + 1])
  {
    var whole := s[..i + 1];
    var left := s[..j];
    var right := s[j..i + 1];
    forall k | 0 < k < |whole|
      ensures LexLeq(whole[k - 1].name, whole[k].name)
    {
      if k < j {
        assert left[k - 1] == whole[k - 1] && left[k] == whole[k];
      } else if k > j {
        assert right[k - 1 - j] == whole[k - 1] && right[k - j] == whole[k];
      }
    }
  }

  // ---------------------------------------------------------------------
  // The handler

  /** `x || y` on optional strings: the first truthy one. */
  function Either(first: Option<string>, second: Option<string>): Option<string> {
    if first.Some? && first.value != "" then first else second
  }

  /** `GET`: the key from the query or the environment, the provider's
      target languages (or what their lookup threw: an `Error`'s message, or
      nothing for any other value), then map, deduplicate and sort. */
  method Get(queryKey: Option<string>, envKey: Option<string>,
             targets: Result<seq<ProviderLanguage>, Option<string>>) returns (response: LanguagesResponse)
    ensures response.LanguagesError? && response.status == 400
            <==> (queryKey.None? || queryKey.value == "") && (envKey.None? || envKey.value == "")
    ensures response.LanguagesError? && response.status == 400 ==> response.error == KeyRequired
    ensures response.LanguagesError? && response.status == 500
            <==> Either(queryKey, envKey).Some? && Either(queryKey, envKey).value != "" && targets.Err?
    ensures response.LanguagesError? && response.status == 500 ==> response.error == targets.error.GetOr(FetchFailed)
    ensures Either(queryKey, envKey).Some? && Either(queryKey, envKey).value != "" && targets.Ok?
            ==> response.LanguagesList?
    ensures response.LanguagesList? ==>
              && targets.Ok?
              && SortedByName(response.languages)
              && multiset(response.languages) == multiset(FirstOfEach(UiLanguages(targets.value)))
  {
    var apiKey := Either(queryKey, envKey);
    if apiKey.None? || apiKey.value == "" {
      return LanguagesError(400, KeyRequired);
    }
    if targets.Err? {
      return LanguagesError(500, targets.error.GetOr(FetchFailed));
    }
    var uiLanguages := UiLanguages(targets.value);
    var unique := Dedup(uiLanguages);
    var a := new UiLanguage[|unique|](i requires 0 <= i < |unique| => unique[i]);
    assert a[..] == unique;
    SortByName(a);
    response := LanguagesList(a[..]);
  }

  /** What a listed answer holds, whatever order the sort leaves equal names
      in: exactly the simplified codes of the provider's languages, each
      entry being the first mapped provider language with its code. */
  lemma ListedLanguages(targets: seq<ProviderLanguage>, listed: seq<UiLanguage>)
    requires multiset(listed) == multiset(FirstOfEach(UiLanguages(targets)))
    ensures CodeSet(listed) == set t | t in targets :: SimplifyCode(t.code)
    ensures forall x :: x in listed ==> IsFirstWithCode(UiLanguages(targets), x)
  {
    var mapped := UiLanguages(targets);
    FirstOfEachSpec(mapped);
    PermutationKeepsEntries(listed, FirstOfEach(mapped));
    MappedCodes(targets);
  }

  lemma PermutationKeepsEntries(listed: seq<UiLanguage>, unique: seq<UiLanguage>)
    requires multiset(listed) == multiset(unique)
    ensures forall x :: x in listed <==> x in unique
    ensures CodeSet(listed) == CodeSet(unique)
  {
    forall x
      ensures x in listed <==> x in unique
    {
      assert x in listed <==> x in multiset(listed);
      assert x in unique <==> x in multiset(unique);
    }
  }

  lemma MappedCodes(targets: seq<ProviderLanguage>)
    ensures CodeSet(UiLanguages(targets)) == set t | t in targets :: SimplifyCode(t.code)
  {
    var mapped := UiLanguages(targets);
    forall c | c in CodeSet(mapped)
      ensures c in set t | t in targets :: SimplifyCode(t.code)
    {
      var l :| l in mapped && l.code == c;
      var i :| 0 <= i < |mapped| && mapped[i] == l;
      assert targets[i] in targets;
    }
    forall c | c in set t | t in targets :: SimplifyCode(t.code)
      ensures c in CodeSet(mapped)
    {
      var t :| t in targets && SimplifyCode(t.code) == c;
      var i :| 0 <= i < |targets| && targets[i] == t;
      assert mapped[i] in mapped;
    }
  }
}
