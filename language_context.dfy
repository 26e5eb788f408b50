/**
 * The language provider: the interface language, the translation tables
 * for each language, the dotted-path lookup `t`, the choice of the initial
 * language from the saved preference and the language switch.
 */
module LanguageContext {
  import opened Wrappers
  import opened Builtins

  datatype Language = En | Ko

  /** A translation table entry: a string, or a nested table. */
  datatype TValue = Str(s: string) | Obj(entries: map<string, TValue>)

  type Table = map<string, TValue>

  /** The storage spelling of a language. */
  function Code(l: Language): (c: string)
    ensures c == "en" || c == "ko"
  {
    match l
    case En => "en"
    case Ko => "ko"
  }

  /** The initial language: the saved value when it is exactly "ko" or "en", English otherwise. */
  function InitialLanguage(saved: Option<string>): (l: Language)
    ensures l == Ko <==> saved == Some("ko")
    ensures saved.Some? && (saved.value == "ko" || saved.value == "en") ==> Code(l) == saved.value
  {
    if saved == Some("ko") then Ko
    else if saved == Some("en") then En
    else En
  }

  /** A language that was saved is the one restored. */
  lemma SavedLanguageRestored(l: Language)
    ensures InitialLanguage(Some(Code(l))) == l
  {
  }

  /** `fallback || key`: an absent or empty fallback gives the key itself. */
  function OrKey(fallback: string, key: string): (r: string)
    ensures fallback != "" ==> r == fallback
    ensures fallback == "" ==> r == key
  {
    if fallback != "" then fallback else key
  }

  /**
   * The value reached by following `keys` from `v` through own keys of
   * nested tables, if the path exists: a string ends every walk.
   */
  function Walk(v: TValue, keys: seq<string>): (r: Option<TValue>)
    ensures v.Str? ==> (r.Some? <==> keys == [])
    ensures keys != [] && r.Some? ==> v.Obj? && keys[0] in v.entries
  {
    if keys == [] then Some(v)
    else if v.Obj? && keys[0] in v.entries then Walk(v.entries[keys[0]], keys[1..])
    else None
  }

  /** One step of a walk: into the entry `k` of a table. */
  function Child(v: TValue, k: string): Option<TValue>
  {
    if v.Obj? && k in v.entries then Some(v.entries[k]) else None
  }

  /** A walk along `p + [k]` is the walk along `p` followed by one step. */
  lemma {:induction false} WalkSnoc(v: TValue, p: seq<string>, k: string)
    ensures Walk(v, p + [k]) == (match Walk(v, p) case Some(w) => Child(w, k) case None => None)
    decreases |p|
  {
    if p == [] {
      assert p + [k] == [k];
      assert [k][1..] == [];
    } else {
      assert (p + [k])[0] == p[0];
      assert (p + [k])[1..] == p[1..] + [k];
      if v.Obj? && p[0] in v.entries {
        WalkSnoc(v.entries[p[0]], p[1..], k);
      }
    }
  }

  /** A walk that cannot take its next step never reaches the end of the path. */
  lemma {:induction false} WalkStuck(v: TValue, keys: seq<string>, i: nat, w: TValue)
    requires i < |keys|
    requires Walk(v, keys[..i]) == Some(w)
    requires Child(w, keys[i]) == None
    ensures Walk(v, keys) == None
    decreases i
  {
    if i == 0 {
      assert keys[..0] == [];
    } else {
      assert keys[..i][0] == keys[0];
      assert keys[..i][1..] == keys[1..][..i - 1];
      WalkStuck(v.entries[keys[0]], keys[1..], i - 1, w);
    }
  }

  /** `t`'s result, stated on the whole path: the string at its end, else `fallback || key`. */
  function Translate(root: Table, key: string, fallback: string): (r: string)
    ensures Walk(Obj(root), Split(key, '.')) == Some(Str(r)) || r == OrKey(fallback, key)
  {
    match Walk(Obj(root), Split(key, '.'))
    case Some(Str(s)) => s
    case _ => OrKey(fallback, key)
  }

  /** A path of nested one-entry tables leading to `leaf`. */
  function Nest(keys: seq<string>, leaf: TValue): TValue
  {
    if keys == [] then leaf else Obj(map[keys[0] := Nest(keys[1..], leaf)])
  }

  lemma {:induction false} WalkNest(keys: seq<string>, leaf: TValue)
    ensures Walk(Nest(keys, leaf), keys) == Some(leaf)
    decreases |keys|
  {
    if keys != [] {
      WalkNest(keys[1..], leaf);
    }
  }

  /** When every segment exists and the path ends at a string, `t` returns that string, even when it is empty. */
  lemma TranslateFound(key: string, s: string, fallback: string)
    ensures Translate(Nest(Split(key, '.'), Str(s)).entries, key, fallback) == s
  {
    var keys := Split(key, '.');
    WalkNest(keys, Str(s));
    assert Nest(keys, Str(s)) == Obj(Nest(keys, Str(s)).entries);
  }

  /** When some segment is missing along the path, `t` returns `fallback || key`. */
  lemma TranslateMissingSegment(root: Table, key: string, fallback: string, i: nat, w: TValue)
    requires i < |Split(key, '.')|
    requires Walk(Obj(root), Split(key, '.')[..i]) == Some(w)
    requires !(w.Obj? && Split(key, '.')[i] in w.entries)
    ensures Translate(root, key, fallback) == OrKey(fallback, key)
  {
    WalkStuck(Obj(root), Split(key, '.'), i, w);
  }

  /** When the path ends at a nested table rather than a string, `t` returns `fallback || key`. */
  lemma TranslateSubTable(root: Table, key: string, fallback: string, m: Table)
    requires Walk(Obj(root), Split(key, '.')) == Some(Obj(m))
    ensures Translate(root, key, fallback) == (if fallback != "" then fallback else key)
  {
  }

  /** With no translations loaded, every key gives `fallback || key`. */
  lemma TranslateEmpty(key: string, fallback: string)
    ensures Translate(map[], key, fallback) == OrKey(fallback, key)
  {
    var keys := Split(key, '.');
    assert keys[..0] == [];
    TranslateMissingSegment(map[], key, fallback, 0, Obj(map[]));
  }

  /** The two keys the fallback tables define, as dotted paths. */
  const HeroTitleKey: string := Join(["home", "hero", "title"], ".")
  const HeroHighlightKey: string := Join(["home", "hero", "titleHighlight"], ".")

  lemma HeroKeysDotted()
    ensures HeroTitleKey == "home" + "." + Join(["hero", "title"], ".")
    ensures HeroHighlightKey == "home" + "." + Join(["hero", "titleHighlight"], ".")
    ensures '.' in HeroTitleKey && '.' in HeroHighlightKey
  {
    assert HeroTitleKey[4] == '.';
    assert HeroHighlightKey[4] == '.';
  }

  /** The fallback tables as the source writes them: the dotted paths used as single flat keys. */
  function FlatFallback(l: Language): (t: Table)
    ensures forall k :: k in t ==> '.' in k
  {
    HeroKeysDotted();
    match l
    case En => map[HeroTitleKey := Str("Discover Your"), HeroHighlightKey := Str("Travel Personality")]
    case Ko => map[HeroTitleKey := Str("당신만의"), HeroHighlightKey := Str("여행 성격을 발견하세요")]
  }

  /**
   * No key reaches a flat fallback entry: the first segment of a split key
   * holds no '.', while every flat key does, so `t` always falls back.
   */
  lemma FlatFallbackUnreachable(l: Language, key: string, fallback: string)
    ensures Translate(FlatFallback(l), key, fallback) == OrKey(fallback, key)
  {
    var keys := Split(key, '.');
    assert keys[..0] == [];
    assert '.' !in keys[0];
    TranslateMissingSegment(FlatFallback(l), key, fallback, 0, Obj(FlatFallback(l)));
  }

  /** The hero texts per language. */
  function HeroTexts(l: Language): (string, string)
  {
    match l
    case En => ("Discover Your", "Travel Personality")
    case Ko => ("당신만의", "여행 성격을 발견하세요")
  }

  /** A table holding the two hero texts along the nested paths. */
  function HeroTable(title: string, highlight: string): Table
  {
    map["home" := Obj(map["hero" := Obj(map["title" := Str(title), "titleHighlight" := Str(highlight)])])]
  }

  /** The fallback tables nested along the paths `t` walks. */
  function NestedFallback(l: Language): Table
  {
    HeroTable(HeroTexts(l).0, HeroTexts(l).1)
  }

  lemma HeroKeysSplit()
    ensures Split(HeroTitleKey, '.') == ["home", "hero", "title"]
    ensures Split(HeroHighlightKey, '.') == ["home", "hero", "titleHighlight"]
  {
    SplitJoin(["home", "hero", "title"], '.');
    SplitJoin(["home", "hero", "titleHighlight"], '.');
  }

  lemma HeroTableWalk(title: string, highlight: string)
    ensures Walk(Obj(HeroTable(title, highlight)), ["home", "hero", "title"]) == Some(Str(title))
    ensures Walk(Obj(HeroTable(title, highlight)), ["home", "hero", "titleHighlight"]) == Some(Str(highlight))
  {
    var leaves := map["title" := Str(title), "titleHighlight" := Str(highlight)];
    assert Walk(Obj(leaves), ["title"]) == Some(Str(title));
    assert Walk(Obj(leaves), ["titleHighlight"]) == Some(Str(highlight));
  }

  /** A key whose segments lead to a string translates to that string. */
  lemma PathLookup(root: Table, key: string, path: seq<string>, s: string, fallback: string)
    requires Split(key, '.') == path
    requires Walk(Obj(root), path) == Some(Str(s))
    ensures Translate(root, key, fallback) == s
  {
  }

  lemma HeroTableLookup(title: string, highlight: string, fallback: string)
    ensures Translate(HeroTable(title, highlight), HeroTitleKey, fallback) == title
    ensures Translate(HeroTable(title, highlight), HeroHighlightKey, fallback) == highlight
  {
    HeroKeysSplit();
    HeroTableWalk(title, highlight);
    PathLookup(HeroTable(title, highlight), HeroTitleKey, ["home", "hero", "title"], title, fallback);
    PathLookup(HeroTable(title, highlight), HeroHighlightKey, ["home", "hero", "titleHighlight"], highlight, fallback);
  }

  /** Through the nested fallback, both hero keys give their text in each language. */
  lemma NestedFallbackReachable(l: Language, fallback: string)
    ensures Translate(NestedFallback(l), HeroTitleKey, fallback) == HeroTexts(l).0
    ensures Translate(NestedFallback(l), HeroHighlightKey, fallback) == HeroTexts(l).1
  {
    HeroTableLookup(HeroTexts(l).0, HeroTexts(l).1, fallback);
  }

  /** The provider's state: the current language, the tables per language and the loading flag. */
  class LanguageProvider {
    var language: Language
    var translations: map<Language, Table>
    var isLoading: bool

    /** Mounting: the language from the saved preference, empty tables, loading under way. */
    constructor(saved: Option<string>)
      ensures language == InitialLanguage(saved)
      ensures translations == map[En := map[], Ko := map[]]
      ensures isLoading
    {
      language := InitialLanguage(saved);
      translations := map[En := map[], Ko := map[]];
      isLoading := true;
    }

    /** The table of the current language; a missing one reads as empty. */
    function Current(): Table
      reads this
    {
      if language in translations then translations[language] else map[]
    }

    /**
     * Finishing the load: the fetched tables, or the flat fallback tables as
     * written when either fetch failed; loading is over either way.
     */
    method FinishLoading(fetched: Option<(Table, Table)>)
      modifies this
      ensures fetched.Some? ==> translations == map[En := fetched.value.0, Ko := fetched.value.1]
      ensures fetched.None? ==> translations == map[En := FlatFallback(En), Ko := FlatFallback(Ko)]
      ensures !isLoading && language == old(language)
    {
      match fetched {
        case Some((en, ko)) =>
          translations := map[En := en, Ko := ko];
        case None =>
          translations := map[En := FlatFallback(En), Ko := FlatFallback(Ko)];
      }
      isLoading := false;
    }

    /** `t`: walks the segments of `key` one at a time through the current table. */
    method T(key: string, fallback: string) returns (r: string)
      ensures r == Translate(Current(), key, fallback)
    {
      var root := Current();
      var keys := Split(key, '.');
      var current := Obj(root);
      for i := 0 to |keys|
        invariant Walk(Obj(root), keys[..i]) == Some(current)
      {
        WalkSnoc(Obj(root), keys[..i], keys[i]);
        assert keys[..i + 1] == keys[..i] + [keys[i]];
        if current.Obj? && keys[i] in current.entries {
          current := current.entries[keys[i]];
        } else {
          WalkStuck(Obj(root), keys, i, current);
          return OrKey(fallback, key);
        }
      }
      assert keys[..|keys|] == keys;
      r := if current.Str? then current.s else OrKey(fallback, key);
    }

    /** `setLanguage`: switches the language and returns the value written to storage. */
    method SetLanguage(l: Language) returns (stored: string)
      modifies this
      ensures language == l && stored == Code(l)
      ensures translations == old(translations) && isLoading == old(isLoading)
    {
      language := l;
      stored := Code(l);
    }
  }
}
