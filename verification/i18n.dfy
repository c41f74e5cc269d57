/**
 * `SimpleI18n`: translation lookup along a dotted key path through nested
 * dictionaries, with English as the fallback language, the key itself as the
 * last resort, and `{{n}}` placeholders filled from a parameter list.
 */
module I18n {
  import opened Wrappers
  import Decimal

  datatype Language = En | Zh | Ja

  function Code(l: Language): string {
    match l
    case En => "en"
    case Zh => "zh"
    case Ja => "ja"
  }

  /** `SUPPORTED_LANGUAGES`, in order. */
  const SupportedLanguages: seq<Language> := [En, Zh, Ja]

  /** The supported language a code names, if any (`SUPPORTED_LANGUAGES.includes`). */
  function ParseLanguage(s: string): (r: Option<Language>)
    ensures r.Some? ==> Code(r.value) == s
    ensures r.None? ==> forall l :: Code(l) != s
  {
    if s == "en" then Some(En) else if s == "zh" then Some(Zh) else if s == "ja" then Some(Ja) else None
  }

  /** A translation resource: a string, or a dictionary of further resources. */
  datatype Node = Text(text: string) | Dict(entries: map<string, Node>)

  /** The three translation tables (`translations`). */
  datatype Tables = Tables(en: Node, zh: Node, ja: Node) {
    function Of(l: Language): Node {
      match l
      case En => en
      case Zh => zh
      case Ja => ja
    }
  }

  /** `s.split('.')`. */
  function Split(s: string): (parts: seq<string>)
    ensures |parts| >= 1
    ensures forall i | 0 <= i < |parts| :: '.' !in parts[i]
  {
    if s == [] then [""]
    else
      var rest := Split(s[1..]);
      if s[0] == '.' then [""] + rest else [[s[0]] + rest[0]] + rest[1..]
  }

  /** `parts.join('.')`. */
  function Join(parts: seq<string>): string
    requires |parts| >= 1
  {
    if |parts| == 1 then parts[0] else parts[0] + "." + Join(parts[1..])
  }

  /** Splitting a key at its dots loses nothing: joining the parts gives it back. */
  lemma {:induction false} JoinSplit(s: string)
    ensures Join(Split(s)) == s
  {
    if s != [] {
      var rest := Split(s[1..]);
      JoinSplit(s[1..]);
      if s[0] == '.' {
        assert Split(s)[1..] == rest;
      } else {
        var parts := Split(s);
        if |rest| == 1 {
          assert parts == [[s[0]] + rest[0]];
        } else {
          assert parts[1..] == rest[1..];
          assert Join(rest) == rest[0] + "." + Join(rest[1..]);
        }
      }
    }
  }

  /** One step of the walk: `current[k]` when `current` is a dictionary that has `k`. */
  function Step(n: Node, k: string): Option<Node> {
    if n.Dict? && k in n.entries then Some(n.entries[k]) else None
  }

  /** Follows `path` from `n`; None when a step finds no dictionary entry. */
  function Walk(n: Node, path: seq<string>): Option<Node>
    decreases |path|
  {
    if path == [] then Some(n)
    else match Step(n, path[0])
      case None => None
      case Some(m) => Walk(m, path[1..])
  }

  /** Walking one key further is one more step from where the walk ended. */
  lemma {:induction false} WalkSnoc(n: Node, path: seq<string>, k: string)
    ensures Walk(n, path + [k]) == match Walk(n, path) case None => None case Some(m) => Step(m, k)
    decreases |path|
  {
    if path == [] {
      assert ([] + [k])[1..] == [];
    } else {
      assert (path + [k])[1..] == path[1..] + [k];
      match Step(n, path[0])
      case None =>
      case Some(m) => WalkSnoc(m, path[1..], k);
    }
  }

  /** Once a walk breaks, walking further does not mend it. */
  lemma {:induction false} WalkBroken(n: Node, path: seq<string>, i: nat)
    requires i <= |path| && Walk(n, path[..i]) == None
    ensures Walk(n, path) == None
    decreases |path|
  {
    assert i > 0;
    assert path[..i][1..] == path[1..][..i - 1];
    match Step(n, path[0])
    case None =>
    case Some(m) => WalkBroken(m, path[1..], i - 1);
  }

  /** A string node yields its text; anything else yields no translation. */
  function StringOf(n: Node): Option<string> {
    if n.Text? then Some(n.text) else None
  }

  /** What `getTranslation` finds: the string at the end of the key path in
      the current language; if the path breaks there (and the language is not
      English), the string at the end of the same path in English. A path that
      ends on a dictionary gives nothing, without trying English. */
  function Translation(tables: Tables, lang: Language, key: string): Option<string> {
    var keys := Split(key);
    match Walk(tables.Of(lang), keys)
    case Some(n) => StringOf(n)
    case None =>
      if lang != En then
        match Walk(tables.en, keys)
        case Some(n) => StringOf(n)
        case None => None
      else None
  }

  /** Length of the run of digits `s` starts with. */
  function DigitRun(s: string): (d: nat)
    ensures d <= |s| && Decimal.AllDigits(s[..d])
    ensures d < |s| ==> !Decimal.IsDigit(s[d])
  {
    if s != [] && Decimal.IsDigit(s[0]) then
      var d := 1 + DigitRun(s[1..]);
      assert s[..d] == [s[0]] + s[1..][..d - 1];
      d
    else 0
  }

  /** The placeholder `{{digits}}` that `s` starts with, as its index and its
      length, if there is one. */
  function PlaceholderAt(s: string): (r: Option<(nat, nat)>)
    ensures r.Some? ==> 5 <= r.value.1 <= |s|
  {
    if |s| >= 2 && s[0] == '{' && s[1] == '{' then
      var d := DigitRun(s[2..]);
      if d >= 1 && d + 4 <= |s| && s[d + 2] == '}' && s[d + 3] == '}' then
        Some((Decimal.DigitsValue(s[2..][..d]), d + 4))
      else None
    else None
  }

  /** The global replace of `{{(\d+)}}`: scanning left to right, each
      placeholder whose index has a defined parameter becomes that parameter's
      text; any other placeholder is left as it was. */
  function Interpolate(s: string, params: seq<Option<string>>): string
    decreases |s|
  {
    if s == [] then []
    else match PlaceholderAt(s)
      case Some((n, len)) =>
        (if n < |params| && params[n].Some? then params[n].value else s[..len]) + Interpolate(s[len..], params)
      case None => [s[0]] + Interpolate(s[1..], params)
  }

  /** With no defined parameter, interpolation leaves the text as it was. */
  lemma {:induction false} InterpolateWithoutParams(s: string, params: seq<Option<string>>)
    requires forall i | 0 <= i < |params| :: params[i].None?
    ensures Interpolate(s, params) == s
    decreases |s|
  {
    if s != [] {
      match PlaceholderAt(s)
      case Some((n, len)) =>
        InterpolateWithoutParams(s[len..], params);
        assert s[..len] + s[len..] == s;
      case None =>
        InterpolateWithoutParams(s[1..], params);
        assert [s[0]] + s[1..] == s;
    }
  }

  /** A run of digits followed by a non-digit is read up to that non-digit. */
  lemma {:induction false} DigitRunStops(a: string, b: string)
    requires Decimal.AllDigits(a) && (b != [] ==> !Decimal.IsDigit(b[0]))
    ensures DigitRun(a + b) == |a|
    decreases |a|
  {
    if a == [] {
      assert a + b == b;
    } else {
      assert (a + b)[0] == a[0] && (a + b)[1..] == a[1..] + b;
      assert Decimal.AllDigits(a[1..]) by {
        forall i | 0 <= i < |a[1..]| ensures Decimal.IsDigit(a[1..][i]) {
          assert a[1..][i] == a[i + 1];
        }
      }
      DigitRunStops(a[1..], b);
    }
  }

  /** `{{n}}` is read as the placeholder of index n. */
  lemma PlaceholderOf(n: nat)
    ensures PlaceholderAt("{{" + Decimal.NatToString(n) + "}}") == Some((n, |Decimal.NatToString(n)| + 4))
  {
    var digits := Decimal.NatToString(n);
    var s := "{{" + digits + "}}";
    assert s[2..] == digits + "}}";
    DigitRunStops(digits, "}}");
    assert s[2..][..|digits|] == digits;
    Decimal.NatToStringValue(n);
    assert s[|digits| + 2] == '}' && s[|digits| + 3] == '}';
  }

  /** `{{n}}` alone becomes the text of parameter n when it is defined. */
  lemma InterpolatePlaceholder(n: nat, params: seq<Option<string>>)
    requires n < |params| && params[n].Some?
    ensures Interpolate("{{" + Decimal.NatToString(n) + "}}", params) == params[n].value
  {
    var digits := Decimal.NatToString(n);
    var s := "{{" + digits + "}}";
    PlaceholderOf(n);
    assert s[|digits| + 4..] == [];
    assert Interpolate(s, params) == params[n].value + Interpolate([], params);
  }

  /** `t(key, params)`: the translation, interpolated when a parameter list is
      given; the key itself when there is no translation or it is empty. */
  function Localize(tables: Tables, lang: Language, key: string, params: Option<seq<Option<string>>>): string {
    match Translation(tables, lang, key)
    case None => key
    case Some(s) =>
      if s == "" then key
      else if params.Some? then Interpolate(s, params.value)
      else s
  }

  /** When neither the current language nor English has a string at the end
      of the key path, `t` returns the key. */
  lemma LocalizeMissing(tables: Tables, lang: Language, key: string, params: Option<seq<Option<string>>>)
    requires forall n :: Walk(tables.Of(lang), Split(key)) == Some(n) ==> !n.Text?
    requires forall n :: Walk(tables.en, Split(key)) == Some(n) ==> !n.Text?
    ensures Localize(tables, lang, key, params) == key
  {
  }

  /** A path that breaks in a language other than English is looked up again
      in English, and the English string is used. */
  lemma LocalizeEnglishFallback(tables: Tables, lang: Language, key: string, s: string)
    requires lang != En && Walk(tables.Of(lang), Split(key)) == None
    requires Walk(tables.en, Split(key)) == Some(Text(s)) && s != ""
    ensures Localize(tables, lang, key, None) == s
  {
  }

  /** A path that ends on a dictionary yields the key, even when English has
      a string there. */
  lemma LocalizeDictionary(tables: Tables, lang: Language, key: string, params: Option<seq<Option<string>>>)
    requires Walk(tables.Of(lang), Split(key)).Some? && Walk(tables.Of(lang), Split(key)).value.Dict?
    ensures Localize(tables, lang, key, params) == key
  {
  }

  class SimpleI18n {
    const translations: Tables
    var currentLanguage: Language

    /** The language is taken only when it is supported; otherwise English. */
    constructor (translations: Tables, language: string)
      ensures this.translations == translations
      ensures currentLanguage == ParseLanguage(language).GetOr(En)
    {
      this.translations := translations;
      currentLanguage := En;
      if language != "" && ParseLanguage(language).Some? {
        currentLanguage := ParseLanguage(language).value;
      }
    }

    /** `getTranslation`: walks the key path, restarting in English when the
        path breaks in another language. */
    method GetTranslation(key: string) returns (r: Option<string>)
      ensures r == Translation(translations, currentLanguage, key)
    {
      var keys := Split(key);
      var root := translations.Of(currentLanguage);
      var current := root;
      var i := 0;
      while i < |keys|
        invariant 0 <= i <= |keys|
        invariant Walk(root, keys[..i]) == Some(current)
      {
        WalkSnoc(root, keys[..i], keys[i]);
        assert keys[..i + 1] == keys[..i] + [keys[i]];
        if current.Dict? && keys[i] in current.entries {
          current := current.entries[keys[i]];
        } else {
          WalkBroken(root, keys, i + 1);
          if currentLanguage != En {
            current := translations.en;
            var j := 0;
            while j < |keys|
              invariant 0 <= j <= |keys|
              invariant Walk(translations.en, keys[..j]) == Some(current)
            {
              WalkSnoc(translations.en, keys[..j], keys[j]);
              assert keys[..j + 1] == keys[..j] + [keys[j]];
              if current.Dict? && keys[j] in current.entries {
                current := current.entries[keys[j]];
              } else {
                WalkBroken(translations.en, keys, j + 1);
                return None;
              }
              j := j + 1;
            }
            assert keys[..j] == keys;
            return StringOf(current);
          }
          return None;
        }
        i := i + 1;
      }
      assert keys[..i] == keys;
      return StringOf(current);
    }

    /** `t(key, params)`. */
    method T(key: string, params: Option<seq<Option<string>>>) returns (r: string)
      ensures r == Localize(translations, currentLanguage, key, params)
    {
      var translation := GetTranslation(key);
      if translation.None? || translation.value == "" {
        return key;
      }
      if params.Some? {
        return Interpolate(translation.value, params.value);
      }
      return translation.value;
    }

    function GetCurrentLanguage(): (code: string)
      reads this
      ensures ParseLanguage(code) == Some(currentLanguage)
    {
      Code(currentLanguage)
    }

    /** Switches language only to a supported one. */
    method SetLanguage(language: string)
      modifies this
      ensures currentLanguage == ParseLanguage(language).GetOr(old(currentLanguage))
    {
      var l := ParseLanguage(language);
      if l.Some? {
        currentLanguage := l.value;
      }
    }

    /** Exactly the codes `SetLanguage` accepts, in order. */
    function GetAvailableLanguages(): (codes: seq<string>)
      ensures codes == ["en", "zh", "ja"]
      ensures forall s :: s in codes <==> ParseLanguage(s).Some?
    {
      [Code(SupportedLanguages[0]), Code(SupportedLanguages[1]), Code(SupportedLanguages[2])]
    }
  }
}
