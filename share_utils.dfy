/**
 * Sharing: `{{key}}` template substitution, the share text and title, the
 * shareable result link and the record handed to the share collaborators.
 * The page origin, the translator and the browser's capabilities are
 * parameters.
 */
module ShareUtils {
  import opened Wrappers
  import opened Types
  import opened Builtins
  import DataIndex

  // Template substitution

  /** `\w` without the Unicode flag: ASCII letters, digits and underscore. */
  predicate WordChar(c: char)
  {
    ('a' <= c <= 'z') || ('A' <= c <= 'Z') || ('0' <= c <= '9') || c == '_'
  }

  /** The length of the run of word characters that starts `s`. */
  function WordRun(s: string): (k: nat)
    ensures k <= |s|
    ensures forall i :: 0 <= i < k ==> WordChar(s[i])
    ensures k < |s| ==> !WordChar(s[k])
  {
    if s == [] || !WordChar(s[0]) then 0 else 1 + WordRun(s[1..])
  }

  /**
   * The key length of a `{{key}}` placeholder at the start of `s`, if one is
   * there. A key is a maximal run of word characters, so the greedy match of
   * `\w+` followed by `}}` succeeds exactly when that run is followed by `}}`.
   */
  function PlaceholderAt(s: string): (k: Option<nat>)
    ensures k.Some? ==> 0 < k.value && k.value + 4 <= |s|
    ensures k.Some? ==> s[0] == '{' && s[1] == '{' && s[k.value + 2] == '}' && s[k.value + 3] == '}'
    ensures k.Some? ==> forall i :: 2 <= i < k.value + 2 ==> WordChar(s[i])
  {
    if |s| >= 2 && s[0] == '{' && s[1] == '{' then
      var k := WordRun(s[2..]);
      if k > 0 && k + 4 <= |s| && s[k + 2] == '}' && s[k + 3] == '}' then Some(k) else None
    else None
  }

  /**
   * `replaceTemplate`: a left-to-right scan that replaces each `{{key}}` by
   * its value when that value is a non-empty string and keeps it verbatim
   * otherwise. Inserted values are not scanned again.
   */
  function ReplaceTemplate(template: string, variables: map<string, string>): (r: string)
    ensures r == [] <==> template == []
    decreases |template|
  {
    if template == [] then []
    else
      match PlaceholderAt(template)
      case Some(k) =>
        var key := template[2..k + 2];
        (if key in variables && variables[key] != "" then variables[key] else template[..k + 4])
        + ReplaceTemplate(template[k + 4..], variables)
      case None =>
        [template[0]] + ReplaceTemplate(template[1..], variables)
  }

  /** With no non-empty value to insert, a template comes back unchanged. */
  lemma {:induction false} ReplaceWithoutValues(template: string, variables: map<string, string>)
    requires forall key :: key in variables ==> variables[key] == ""
    ensures ReplaceTemplate(template, variables) == template
    decreases |template|
  {
    if template != [] {
      match PlaceholderAt(template)
      case Some(k) =>
        ReplaceWithoutValues(template[k + 4..], variables);
        assert template == template[..k + 4] + template[k + 4..];
      case None =>
        ReplaceWithoutValues(template[1..], variables);
        assert template == [template[0]] + template[1..];
    }
  }

  /** A non-empty template never yields an empty string. */
  lemma {:induction false} ReplaceNonEmpty(template: string, variables: map<string, string>)
    requires template != ""
    ensures ReplaceTemplate(template, variables) != ""
  {
  }

  /** Text without `{` passes through untouched. */
  lemma {:induction false} PlainPrefix(p: string, rest: string, variables: map<string, string>)
    requires '{' !in p
    ensures ReplaceTemplate(p + rest, variables) == p + ReplaceTemplate(rest, variables)
    decreases |p|
  {
    if p != [] {
      var s := p + rest;
      assert s[0] == p[0] && s[1..] == p[1..] + rest;
      assert PlaceholderAt(s).None?;
      PlainPrefix(p[1..], rest, variables);
      assert p == [p[0]] + p[1..];
    } else {
      assert p + rest == rest;
    }
  }

  lemma {:induction false} WordRunOfKey(key: string, rest: string)
    requires forall i :: 0 <= i < |key| ==> WordChar(key[i])
    ensures WordRun(key + "}}" + rest) == |key|
    decreases |key|
  {
    if key == [] {
      assert (key + "}}" + rest)[0] == '}';
    } else {
      assert (key + "}}" + rest)[1..] == key[1..] + "}}" + rest;
      WordRunOfKey(key[1..], rest);
    }
  }

  /** A placeholder at the front is replaced by its non-empty value, or kept. */
  lemma PlaceholderFirst(key: string, rest: string, variables: map<string, string>)
    requires key != "" && forall i :: 0 <= i < |key| ==> WordChar(key[i])
    ensures ReplaceTemplate(Placeholder(key) + rest, variables) ==
      (if key in variables && variables[key] != "" then variables[key] else Placeholder(key))
      + ReplaceTemplate(rest, variables)
  {
    var s := Placeholder(key) + rest;
    PlaceholderRecognised(key, rest);
    PlaceholderSlices(key, rest);
    assert ReplaceTemplate(s, variables) ==
      (if s[2..|key| + 2] in variables && variables[s[2..|key| + 2]] != "" then variables[s[2..|key| + 2]] else s[..|key| + 4])
      + ReplaceTemplate(s[|key| + 4..], variables);
  }

  lemma PlaceholderRecognised(key: string, rest: string)
    requires key != "" && forall i :: 0 <= i < |key| ==> WordChar(key[i])
    ensures PlaceholderAt(Placeholder(key) + rest) == Some(|key|)
  {
    var s := Placeholder(key) + rest;
    assert s[2..] == key + "}}" + rest;
    WordRunOfKey(key, rest);
    assert s[0] == '{' && s[1] == '{';
    assert s[|key| + 2] == '}' && s[|key| + 3] == '}';
  }

  lemma PlaceholderSlices(key: string, rest: string)
    ensures var s := Placeholder(key) + rest;
      && |s| == |key| + 4 + |rest|
      && s[2..|key| + 2] == key
      && s[..|key| + 4] == Placeholder(key)
      && s[|key| + 4..] == rest
  {
  }

  /**
   * A substituted value is not scanned again: a lone placeholder becomes
   * exactly its non-empty value, even when that value holds placeholders
   * of its own.
   */
  lemma NotRescanned(key: string, v: string, variables: map<string, string>)
    requires key != "" && forall i :: 0 <= i < |key| ==> WordChar(key[i])
    requires key in variables && variables[key] == v && v != ""
    ensures ReplaceTemplate(Placeholder(key), variables) == v
  {
    PlaceholderFirst(key, "", variables);
    assert Placeholder(key) + "" == Placeholder(key);
  }

  // Share text and title

  /** A translation function `t(key, fallback)`. */
  type Translator = (string, string) -> string

  /** `{{key}}`. */
  function Placeholder(key: string): string
  {
    "{{" + key + "}}"
  }

  // The fixed text around the placeholders of the default share sentence and title.
  const TextHead: string := "🧳 I'm a "
  const TextMid: string := " ("
  const TextTail: string := ") traveler! Discover your MBTI travel " + "style and find out what kind of " + "adventurer you are! ✈️"
  const TitleHead: string := "MBTI Travel Style: "
  const TitleMid: string := " - "

  /** The default sentence template. */
  const TextTemplate: string := TextHead + Placeholder("code") + TextMid + Placeholder("name") + TextTail
  /** The default title template. */
  const TitleTemplate: string := TitleHead + Placeholder("code") + TitleMid + Placeholder("name")

  /** The English sentence used without a translator. */
  function FallbackText(code: string, name: string): string
  {
    TextHead + code + TextMid + name + TextTail
  }

  function FallbackTitle(code: string, name: string): string
  {
    TitleHead + code + TitleMid + name
  }

  function Vars(code: string, name: string): map<string, string>
  {
    map["code" := code, "name" := name]
  }

  /** The key under which a type's translated name is looked up. */
  function NameKey(code: string): string
  {
    "questions.mbtiTypes." + code + ".name"
  }

  /**
   * `generateShareText`: without a translator the text is the default
   * template filled with the type's code and name.
   */
  function GenerateShareText(m: MbtiType, t: Option<Translator>): (r: string)
    ensures t.None? && m.code != "" && m.name != "" ==> r == ReplaceTemplate(TextTemplate, Vars(m.code, m.name))
  {
    match t
    case Some(tr) =>
      var translatedName := tr(NameKey(m.code), m.name);
      var template := tr("share.data.text", TextTemplate);
      ReplaceTemplate(template, Vars(m.code, translatedName))
    case None =>
      if m.code != "" && m.name != "" then
        TextTemplateMatches(m.code, m.name);
        FallbackText(m.code, m.name)
      else FallbackText(m.code, m.name)
  }

  /**
   * The title `createShareData` builds: without a translator, the default
   * title template filled with the type's code and name.
   */
  function ShareTitle(m: MbtiType, t: Option<Translator>): (r: string)
    ensures t.None? && m.code != "" && m.name != "" ==> r == ReplaceTemplate(TitleTemplate, Vars(m.code, m.name))
  {
    match t
    case Some(tr) =>
      var translatedName := tr(NameKey(m.code), m.name);
      var template := tr("share.data.title", TitleTemplate);
      ReplaceTemplate(template, Vars(m.code, translatedName))
    case None =>
      if m.code != "" && m.name != "" then
        TitleTemplateMatches(m.code, m.name);
        FallbackTitle(m.code, m.name)
      else FallbackTitle(m.code, m.name)
  }

  /** The default templates, filled in, are exactly the English fallbacks. */
  lemma TemplatesMatchFallbacks(code: string, name: string)
    requires code != "" && name != ""
    ensures ReplaceTemplate(TextTemplate, Vars(code, name)) == FallbackText(code, name)
    ensures ReplaceTemplate(TitleTemplate, Vars(code, name)) == FallbackTitle(code, name)
  {
    TextTemplateMatches(code, name);
    TitleTemplateMatches(code, name);
  }

  /** The fixed pieces hold no `{`, so no placeholder starts inside them. */
  lemma PiecesPlain()
    ensures '{' !in TextHead && '{' !in TextMid && '{' !in TextTail
    ensures '{' !in TitleHead && '{' !in TitleMid
  {
    var t1, t2, t3 := ") traveler! Discover your MBTI travel ", "style and find out what kind of ", "adventurer you are! ✈️";
    assert '{' !in t1 && '{' !in t2 && '{' !in t3;
    assert TextTail == t1 + t2 + t3;
  }

  lemma TextTemplateMatches(code: string, name: string)
    requires code != "" && name != ""
    ensures ReplaceTemplate(TextTemplate, Vars(code, name)) == FallbackText(code, name)
  {
    PiecesPlain();
    TwoPlaceholders(TextHead, TextMid, TextTail, Vars(code, name));
    Regroup(TextHead, Placeholder("code"), TextMid, Placeholder("name"), TextTail);
    Regroup(TextHead, code, TextMid, name, TextTail);
  }

  lemma TitleTemplateMatches(code: string, name: string)
    requires code != "" && name != ""
    ensures ReplaceTemplate(TitleTemplate, Vars(code, name)) == FallbackTitle(code, name)
  {
    PiecesPlain();
    TwoPlaceholders(TitleHead, TitleMid, "", Vars(code, name));
    Regroup(TitleHead, Placeholder("code"), TitleMid, Placeholder("name"), "");
    Regroup(TitleHead, code, TitleMid, name, "");
  }

  lemma Regroup(a: string, b: string, c: string, d: string, e: string)
    ensures a + b + c + d + e == a + (b + (c + (d + e)))
    ensures a + b + c + d == a + (b + (c + (d + "")))
  {
  }

  lemma KeysAreWords()
    ensures forall i :: 0 <= i < |"code"| ==> WordChar("code"[i])
    ensures forall i :: 0 <= i < |"name"| ==> WordChar("name"[i])
  {
  }

  /** A template of the shape head, `{{code}}`, mid, `{{name}}`, tail, with plain text around the placeholders. */
  lemma TwoPlaceholders(head: string, mid: string, tail: string, vars: map<string, string>)
    requires '{' !in head && '{' !in mid && '{' !in tail
    requires "code" in vars && vars["code"] != "" && "name" in vars && vars["name"] != ""
    ensures ReplaceTemplate(head + (Placeholder("code") + (mid + (Placeholder("name") + tail))), vars)
      == head + (vars["code"] + (mid + (vars["name"] + tail)))
  {
    KeysAreWords();
    PlainPrefix(tail, "", vars);
    assert tail + "" == tail;
    PlaceholderFirst("name", tail, vars);
    PlainPrefix(mid, Placeholder("name") + tail, vars);
    PlaceholderFirst("code", mid + (Placeholder("name") + tail), vars);
    PlainPrefix(head, Placeholder("code") + (mid + (Placeholder("name") + tail)), vars);
  }

  /** A translator that answers every key with its fallback, as one with nothing loaded does. */
  ghost predicate EchoesFallback(tr: Translator)
  {
    forall key, fallback :: fallback != "" ==> tr(key, fallback) == fallback
  }

  /** Such a translator produces the same text and title as no translator at all. */
  lemma EchoingTranslatorAgrees(m: MbtiType, tr: Translator)
    requires EchoesFallback(tr)
    requires m.code != "" && m.name != ""
    ensures GenerateShareText(m, Some(tr)) == GenerateShareText(m, None)
    ensures ShareTitle(m, Some(tr)) == ShareTitle(m, None)
  {
    assert tr(NameKey(m.code), m.name) == m.name;
    assert tr("share.data.text", TextTemplate) == TextTemplate;
    assert tr("share.data.title", TitleTemplate) == TitleTemplate;
    TemplatesMatchFallbacks(m.code, m.name);
  }

  // The shareable link

  /** Characters `encodeURIComponent` leaves as they are. */
  predicate Unreserved(c: char)
  {
    ('A' <= c <= 'Z') || ('a' <= c <= 'z') || ('0' <= c <= '9') || c in "-_.!~*'()"
  }

  function HexDigit(n: nat): (c: char)
    requires n < 16
    ensures ('0' <= c <= '9') || ('A' <= c <= 'F')
  {
    if n < 10 then ('0' as int + n) as char else ('A' as int + n - 10) as char
  }

  /** The value of an uppercase or lowercase hexadecimal digit. */
  function HexValue(c: char): (v: Option<nat>)
    ensures v.Some? ==> v.value < 16
  {
    if '0' <= c <= '9' then Some(c as int - '0' as int)
    else if 'A' <= c <= 'F' then Some(c as int - 'A' as int + 10)
    else if 'a' <= c <= 'f' then Some(c as int - 'a' as int + 10)
    else None
  }

  lemma HexRoundTrip(n: nat)
    requires n < 16
    ensures HexValue(HexDigit(n)) == Some(n)
  {
  }

  /** `%XY` for one byte, with uppercase digits. */
  function PercentByte(b: nat): (s: string)
    requires b < 256
    ensures |s| == 3 && s[0] == '%'
  {
    ['%', HexDigit(b / 16), HexDigit(b % 16)]
  }

  /** The UTF-8 bytes of one character. */
  function Utf8(c: char): (bytes: seq<nat>)
    ensures 1 <= |bytes| <= 4
    ensures forall i :: 0 <= i < |bytes| ==> bytes[i] < 256
    ensures c as int < 0x80 ==> bytes == [c as int]
  {
    var cp := c as int;
    if cp < 0x80 then [cp]
    else if cp < 0x800 then [0xC0 + cp / 0x40, 0x80 + cp % 0x40]
    else if cp < 0x10000 then [0xE0 + cp / 0x1000, 0x80 + (cp / 0x40) % 0x40, 0x80 + cp % 0x40]
    else [0xF0 + cp / 0x40000, 0x80 + (cp / 0x1000) % 0x40, 0x80 + (cp / 0x40) % 0x40, 0x80 + cp % 0x40]
  }

  function PercentBytes(bytes: seq<nat>): (s: string)
    requires forall i :: 0 <= i < |bytes| ==> bytes[i] < 256
    ensures |s| == 3 * |bytes|
    ensures forall i :: 0 <= i < |s| ==> s[i] == '%' || Unreserved(s[i])
  {
    if bytes == [] then "" else PercentByte(bytes[0]) + PercentBytes(bytes[1..])
  }

  function EncodeChar(c: char): (s: string)
    ensures forall i :: 0 <= i < |s| ==> s[i] == '%' || Unreserved(s[i])
  {
    if Unreserved(c) then [c] else PercentBytes(Utf8(c))
  }

  /**
   * `encodeURIComponent`: unreserved characters are kept, every other
   * character becomes the percent-escapes of its UTF-8 bytes. The output
   * holds only unreserved characters and `%`, so no `&`, `=`, `#` or `+`.
   */
  function EncodeUriComponent(s: string): (r: string)
    ensures forall i :: 0 <= i < |r| ==> r[i] == '%' || Unreserved(r[i])
  {
    if s == [] then "" else EncodeChar(s[0]) + EncodeUriComponent(s[1..])
  }

  /** A string of unreserved characters, such as a type code, is its own encoding. */
  lemma {:induction false} EncodeUnreservedIdentity(s: string)
    requires forall i :: 0 <= i < |s| ==> Unreserved(s[i])
    ensures EncodeUriComponent(s) == s
  {
    if s != [] {
      EncodeUnreservedIdentity(s[1..]);
      assert s == [s[0]] + s[1..];
    }
  }

  /**
   * `createShareableURL`, with the page origin as a parameter: the origin,
   * the results path with its `type` parameter, then only escapes and
   * unreserved characters.
   */
  function CreateShareableUrl(origin: string, typeCode: string): (r: string)
    ensures |r| >= |origin| + 14 && r[..|origin| + 14] == origin + "/results?type="
    ensures forall i :: |origin| + 14 <= i < |r| ==> r[i] == '%' || Unreserved(r[i])
  {
    origin + "/results?type=" + EncodeUriComponent(typeCode)
  }

  /** For a type code the link ends in `?type=` followed by the code itself. */
  lemma ShareableUrlOfCode(origin: string, code: string)
    requires IsMbtiCode(code)
    ensures CreateShareableUrl(origin, code) == origin + "/results?type=" + code
  {
    EncodeUnreservedIdentity(code);
  }

  // Reading the link back, as the results page does

  /**
   * Form-decoding of one query component: `+` is a space and an escape of an
   * ASCII byte is that character. Escapes of other bytes are kept as written.
   */
  function DecodeComponent(s: string): string
  {
    if s == [] then ""
    else if s[0] == '+' then " " + DecodeComponent(s[1..])
    else if s[0] == '%' && |s| >= 3 && HexValue(s[1]).Some? && HexValue(s[2]).Some?
      && HexValue(s[1]).value * 16 + HexValue(s[2]).value < 0x80
    then [(HexValue(s[1]).value * 16 + HexValue(s[2]).value) as char] + DecodeComponent(s[3..])
    else [s[0]] + DecodeComponent(s[1..])
  }

  lemma DecodeAfterChar(c: char, rest: string)
    requires c as int < 0x80
    ensures DecodeComponent(EncodeChar(c) + rest) == [c] + DecodeComponent(rest)
  {
    if Unreserved(c) {
      assert ([c] + rest)[1..] == rest;
    } else {
      var b := c as int;
      HexRoundTrip(b / 16);
      HexRoundTrip(b % 16);
      var s := EncodeChar(c) + rest;
      assert EncodeChar(c) == PercentByte(b) by {
        assert Utf8(c) == [b];
        assert PercentBytes([b]) == PercentByte(b) + PercentBytes([]);
      }
      assert s[1] == HexDigit(b / 16) && s[2] == HexDigit(b % 16);
      assert s[3..] == rest;
    }
  }

  /** Decoding undoes encoding for every ASCII string. */
  lemma {:induction false} DecodeEncode(s: string)
    requires forall i :: 0 <= i < |s| ==> s[i] as int < 0x80
    ensures DecodeComponent(EncodeUriComponent(s)) == s
  {
    if s != [] {
      DecodeAfterChar(s[0], EncodeUriComponent(s[1..]));
      DecodeEncode(s[1..]);
      assert s == [s[0]] + s[1..];
    }
  }

  /** The name and the value of one `name=value` piece of a query. */
  function SplitPair(piece: string): (string, string)
  {
    if '=' in piece then
      var k := IndexOf(piece, '=');
      (piece[..k], piece[k + 1..])
    else (piece, "")
  }

  /** The decoded value of the first piece whose decoded name matches. */
  function FirstValue(pieces: seq<string>, name: string): Option<string>
  {
    if pieces == [] then None
    else
      var (k, v) := SplitPair(pieces[0]);
      if DecodeComponent(k) == name then Some(DecodeComponent(v)) else FirstValue(pieces[1..], name)
  }

  /** `searchParams.get(name)` on a link: the query runs from the first `?` to the first `#`. */
  function SearchParam(url: string, name: string): (r: Option<string>)
    ensures r.Some? ==> '?' in url
  {
    if '?' !in url then None
    else
      var afterMark := url[IndexOf(url, '?') + 1..];
      var query := if '#' in afterMark then afterMark[..IndexOf(afterMark, '#')] else afterMark;
      FirstValue(Split(query, '&'), name)
  }

  /** What the results page shows for a link: the type named by a non-empty `type` parameter, if the table has it. */
  function SharedResult(url: string): (r: Option<MbtiType>)
    ensures r.Some? ==> IsMbtiCode(r.value.code) && SearchParam(url, "type") == Some(r.value.code)
  {
    match SearchParam(url, "type")
    case Some(code) => if code != "" then DataIndex.GetMbtiType(code) else None
    case None => None
  }

  lemma {:induction false} IndexOfAfter(a: string, b: string, c: char)
    requires c !in a && c in b
    ensures c in a + b && IndexOf(a + b, c) == |a| + IndexOf(b, c)
    decreases |a|
  {
    if a == [] {
      assert a + b == b;
    } else {
      assert (a + b)[1..] == a[1..] + b;
      IndexOfAfter(a[1..], b, c);
    }
  }

  /** The query of a shared link is `type=` followed by the encoded code. */
  lemma QueryOfLink(origin: string, code: string)
    requires '?' !in origin
    ensures var url := CreateShareableUrl(origin, code);
      '?' in url && url[IndexOf(url, '?') + 1..] == "type=" + EncodeUriComponent(code)
  {
    var encoded := EncodeUriComponent(code);
    var a, b := origin + "/results", "?type=" + encoded;
    assert '?' !in a by {
      assert '?' !in "/results";
    }
    assert CreateShareableUrl(origin, code) == a + b;
    assert b[0] == '?' && b[1..] == "type=" + encoded;
    QueryAfterMark(a, b);
  }

  /** The first `?` of `a + b`, with none in `a` and `b` opening with one, is where `b` starts. */
  lemma QueryAfterMark(a: string, b: string)
    requires '?' !in a && |b| >= 1 && b[0] == '?'
    ensures '?' in a + b && (a + b)[IndexOf(a + b, '?') + 1..] == b[1..]
  {
    assert IndexOf(b, '?') == 0;
    IndexOfAfter(a, b, '?');
    assert (a + b)[|a| + 1..] == b[1..];
  }

  lemma NotEncoded(encoded: string, c: char)
    requires forall i :: 0 <= i < |encoded| ==> encoded[i] == '%' || Unreserved(encoded[i])
    requires c != '%' && !Unreserved(c)
    ensures c !in encoded
  {
  }

  /** Unreserved text decodes to itself. */
  lemma {:induction false} DecodePlain(s: string)
    requires forall i :: 0 <= i < |s| ==> Unreserved(s[i])
    ensures DecodeComponent(s) == s
  {
    if s != [] {
      DecodePlain(s[1..]);
      assert s == [s[0]] + s[1..];
    }
  }

  /** A value without `#` or `&` leaves the query as the single piece `type=` and the value. */
  lemma SinglePiece(encoded: string)
    requires '#' !in encoded && '&' !in encoded
    ensures '#' !in "type=" + encoded
    ensures Split("type=" + encoded, '&') == ["type=" + encoded]
  {
    var s := "type=" + encoded;
    assert '#' !in "type=" && '&' !in "type=";
    assert '&' !in s;
  }

  /** The first `=` of `type=` and a value without `=` splits off the name `type`. */
  lemma TypePair(encoded: string)
    requires '=' !in encoded
    ensures SplitPair("type=" + encoded) == ("type", encoded)
  {
    var q := "type=" + encoded;
    IndexOfAfter("type", "=" + encoded, '=');
    assert "type" + ("=" + encoded) == q;
    assert IndexOf("=" + encoded, '=') == 0;
    assert q[..4] == "type" && q[5..] == encoded;
  }

  /** The query of a shared link holds the single piece `type=` and the encoded code. */
  lemma TypeParamOfQuery(encoded: string)
    requires '#' !in encoded && '&' !in encoded && '=' !in encoded
    ensures FirstValue(Split("type=" + encoded, '&'), "type") == Some(DecodeComponent(encoded))
  {
    var q := "type=" + encoded;
    SinglePiece(encoded);
    TypePair(encoded);
    DecodeTypeName();
    FirstValueSingle(q, "type");
  }

  lemma DecodeTypeName()
    ensures DecodeComponent("type") == "type"
  {
    DecodePlain("type");
  }

  /** A single piece whose decoded name matches gives its decoded value. */
  lemma FirstValueSingle(piece: string, name: string)
    requires DecodeComponent(SplitPair(piece).0) == name
    ensures FirstValue([piece], name) == Some(DecodeComponent(SplitPair(piece).1))
  {
  }

  /** The `type` parameter of a shared link is the ASCII code it was made from. */
  lemma SharedLinkParam(origin: string, code: string)
    requires '?' !in origin && '#' !in origin
    requires forall i :: 0 <= i < |code| ==> code[i] as int < 0x80
    ensures SearchParam(CreateShareableUrl(origin, code), "type") == Some(code)
  {
    var encoded := EncodeUriComponent(code);
    NotEncoded(encoded, '#');
    NotEncoded(encoded, '&');
    NotEncoded(encoded, '=');
    QueryOfLink(origin, code);
    SinglePiece(encoded);
    TypeParamOfQuery(encoded);
    DecodeEncode(code);
  }

  /** Opening a shared link shows the same table entry as looking the code up directly. */
  lemma SharedLinkRoundTrip(origin: string, code: string)
    requires '?' !in origin && '#' !in origin
    requires code != "" && forall i :: 0 <= i < |code| ==> code[i] as int < 0x80
    ensures SharedResult(CreateShareableUrl(origin, code)) == DataIndex.GetMbtiType(code)
  {
    SharedLinkParam(origin, code);
  }

  // The share record

  /** `createShareData`. */
  function CreateShareData(m: MbtiType, t: Option<Translator>, origin: string): (d: ShareData)
    ensures d.personalityType == m.code
    ensures d.url == CreateShareableUrl(origin, m.code)
    ensures d.travelStyle == m.travelStyle.planningStyle
    ensures d.text == GenerateShareText(m, t) && d.title == ShareTitle(m, t)
  {
    ShareData(ShareTitle(m, t), GenerateShareText(m, t), CreateShareableUrl(origin, m.code), m.code, m.travelStyle.planningStyle)
  }

  /** `validateShareData`: title, text, link and type must all be non-empty. */
  function ValidateShareData(d: ShareData): (ok: bool)
    ensures ok <==> d.title != "" && d.text != "" && d.url != "" && d.personalityType != ""
  {
    d.title != "" && d.text != "" && d.url != "" && d.personalityType != ""
  }

  /** A translator that never answers with an empty string when given a non-empty fallback. */
  ghost predicate KeepsNonEmpty(tr: Translator)
  {
    forall key, fallback :: fallback != "" ==> tr(key, fallback) != ""
  }

  /**
   * The record built for a type is valid exactly when its code is non-empty,
   * given a translator that never turns a non-empty fallback into "".
   */
  lemma ShareDataValid(m: MbtiType, t: Option<Translator>, origin: string)
    requires t.Some? ==> KeepsNonEmpty(t.value)
    ensures ValidateShareData(CreateShareData(m, t, origin)) <==> m.code != ""
  {
    if t.Some? {
      var tr := t.value;
      assert tr("share.data.text", TextTemplate) != "";
      assert tr("share.data.title", TitleTemplate) != "";
      ReplaceNonEmpty(tr("share.data.text", TextTemplate), Vars(m.code, tr(NameKey(m.code), m.name)));
      ReplaceNonEmpty(tr("share.data.title", TitleTemplate), Vars(m.code, tr(NameKey(m.code), m.name)));
    }
    assert CreateShareableUrl(origin, m.code) != "" by {
      assert |CreateShareableUrl(origin, m.code)| >= |"/results?type="|;
    }
  }

  /** Every entry of the type table yields a valid record. */
  lemma TableEntriesShareable(code: string, t: Option<Translator>, origin: string)
    requires IsMbtiCode(code)
    requires t.Some? ==> KeepsNonEmpty(t.value)
    ensures DataIndex.GetMbtiType(code).Some?
    ensures ValidateShareData(CreateShareData(DataIndex.GetMbtiType(code).value, t, origin))
  {
    var r := DataIndex.GetMbtiType(code);
    assert r.Some? && r.value.code == code;
    ShareDataValid(r.value, t, origin);
  }

  // Choosing how to share

  datatype Platform = Mobile | Desktop
  datatype SharingMethod = Web | Clipboard

  /** `getOptimalSharingMethod`, with Web Share support and the platform as parameters. */
  function GetOptimalSharingMethod(webShareSupported: bool, platform: Platform): (m: SharingMethod)
    ensures m == Web <==> webShareSupported && platform == Mobile
  {
    if webShareSupported && platform == Mobile then Web else Clipboard
  }
}
