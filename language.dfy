/**
 * The language context: the current language ('en' at first, restored from storage when a
 * valid choice was saved), `setLanguage`, which also saves the choice, and `t`, which looks a key
 * up in the current language's table and falls back to the key itself.
 */
module Language {
  import opened Wrappers

  datatype Lang = En | Cn

  function Code(l: Lang): (s: string)
  {
    match l
    case En => "en"
    case Cn => "cn"
  }

  /** A saved value is a language only when it is exactly "en" or "cn". */
  function ParseLang(saved: Option<string>): (l: Option<Lang>)
    ensures l.Some? <==> saved == Some("en") || saved == Some("cn")
    ensures l.Some? ==> saved == Some(Code(l.value))
  {
    if saved == Some("en") then Some(En)
    else if saved == Some("cn") then Some(Cn)
    else None
  }

  /** The two translation tables (their text is not part of this model). */
  datatype Translations = Translations(en: map<string, string>, cn: map<string, string>)

  function Table(tr: Translations, l: Lang): map<string, string> {
    match l
    case En => tr.en
    case Cn => tr.cn
  }

  /** `t(key)`: the current table's text for the key when it has a non-empty one, otherwise the key. */
  function Translate(tr: Translations, l: Lang, key: string): (text: string)
    ensures key in Table(tr, l) && Table(tr, l)[key] != "" ==> text == Table(tr, l)[key]
    ensures key !in Table(tr, l) || Table(tr, l)[key] == "" ==> text == key
    ensures text == "" ==> key == ""
  {
    var table := Table(tr, l);
    if key in table && table[key] != "" then table[key] else key
  }

  /** The language after the restore effect: a valid saved choice wins, anything else keeps the current one. */
  function Restored(current: Lang, saved: Option<string>): (l: Lang)
    ensures ParseLang(saved).None? ==> l == current
    ensures ParseLang(saved).Some? ==> l == ParseLang(saved).value
  {
    match ParseLang(saved)
    case None => current
    case Some(s) => s
  }

  /** A saved choice is restored as the same language. */
  lemma SavedChoiceRestored(current: Lang, l: Lang)
    ensures Restored(current, Some(Code(l))) == l
  {
  }

  /** The provider's state: the current language and the `language` entry of local storage. */
  class LanguageProvider {
    var language: Lang
    var saved: Option<string>

    constructor (stored: Option<string>)
      ensures language == En && saved == stored
    {
      language := En;
      saved := stored;
    }

    /** The mount effect. */
    method Restore()
      modifies this
      ensures language == Restored(old(language), old(saved)) && saved == old(saved)
    {
      var s := ParseLang(saved);
      if s.Some? {
        language := s.value;
      }
    }

    /** `setLanguage(l)`: switches and saves. */
    method SetLanguage(l: Lang)
      modifies this
      ensures language == l && saved == Some(Code(l))
    {
      language := l;
      saved := Some(Code(l));
    }
  }
}
