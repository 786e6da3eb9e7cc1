/** The language context: the current language, the document direction it
    sets, and `t`, the lookup of a dotted key in the translation tables with
    its English and key fallbacks. */
module Language {
  import opened Types

  datatype Lang = En | Ar

  /** The language code `document.documentElement.lang` receives. */
  function Code(l: Lang): string {
    match l
    case En => "en"
    case Ar => "ar"
  }

  /** `language === 'ar' ? 'rtl' : 'ltr'` for the two languages. */
  function Dir(l: Lang): (d: string)
    ensures d == "rtl" <==> l == Ar
    ensures d == "ltr" <==> l == En
  {
    assert "rtl"[0] != "ltr"[0];
    match l
    case Ar => "rtl"
    case En => "ltr"
  }

  /** `language === 'en' ? 'ar' : 'en'`. */
  function Toggle(l: Lang): (r: Lang)
    ensures r != l
  {
    if l == En then Ar else En
  }

  /** Toggling twice restores the language. */
  lemma ToggleTwice(l: Lang)
    ensures Toggle(Toggle(l)) == l
  {
  }

  /** A node of a translation table: a translated text, or a table of
      named sub-nodes. */
  datatype Node = Text(s: string) | Table(entries: map<string, Node>)

  /** The translation table of each language. */
  datatype Translations = Translations(en: Node, ar: Node)

  function TableFor(tr: Translations, l: Lang): Node {
    match l
    case En => tr.en
    case Ar => tr.ar
  }

  /** JavaScript truthiness of a node: a table always, a text when it is not
      empty. */
  predicate Truthy(n: Node) {
    n.Table? || n.s != ""
  }

  /** `key.split('.')`: the pieces of `key` between dots, at least one. */
  function Split(key: string): (pieces: seq<string>)
    ensures |pieces| >= 1
    ensures forall i :: 0 <= i < |pieces| ==> '.' !in pieces[i]
  {
    if key == [] then [""]
    else
      var rest := Split(key[1..]);
      if key[0] == '.' then [""] + rest else [[key[0]] + rest[0]] + rest[1..]
  }

  /** `pieces.join('.')`. */
  function Join(pieces: seq<string>): string
    requires |pieces| >= 1
  {
    if |pieces| == 1 then pieces[0] else pieces[0] + "." + Join(pieces[1..])
  }

  /** Splitting and joining again gives the key back. */
  lemma {:induction false} JoinSplit(key: string)
    ensures Join(Split(key)) == key
  {
    if key != [] {
      JoinSplit(key[1..]);
      var rest := Split(key[1..]);
      if key[0] == '.' {
        assert [""] + rest == [""] + rest;
        assert Join([""] + rest) == "" + "." + Join(rest);
      } else {
        assert Join([[key[0]] + rest[0]] + rest[1..]) == [key[0]] + Join(rest) by {
          if |rest| > 1 {
            assert ([[key[0]] + rest[0]] + rest[1..])[1..] == rest[1..];
          }
        }
      }
    }
  }

  /** Joining dot-free pieces and splitting again gives the pieces back. */
  lemma {:induction false} SplitJoin(pieces: seq<string>)
    requires |pieces| >= 1
    requires forall i :: 0 <= i < |pieces| ==> '.' !in pieces[i]
    ensures Split(Join(pieces)) == pieces
    decreases |pieces|, |pieces[0]|
  {
    if |pieces| == 1 {
      SplitNoDot(pieces[0]);
    } else if pieces[0] == "" {
      assert Join(pieces) == "." + Join(pieces[1..]);
      SplitJoin(pieces[1..]);
      assert Join(pieces)[1..] == Join(pieces[1..]);
    } else {
      var head := pieces[0];
      var shorter := [head[1..]] + pieces[1..];
      assert shorter[1..] == pieces[1..];
      assert forall i :: 0 <= i < |shorter| ==> '.' !in shorter[i] by {
        forall i | 0 <= i < |shorter|
          ensures '.' !in shorter[i]
        {
          if i == 0 {
            assert forall c :: c in head[1..] ==> c in head;
          }
        }
      }
      SplitJoin(shorter);
      assert Join(pieces) == [head[0]] + Join(shorter);
      assert Join(pieces)[1..] == Join(shorter);
      assert head[0] != '.' by { assert head[0] in head; }
      assert [head[0]] + head[1..] == head;
    }
  }

  /** A key without dots is one piece. */
  lemma {:induction false} SplitNoDot(key: string)
    requires '.' !in key
    ensures Split(key) == [key]
  {
    if key != [] {
      assert '.' !in key[1..] by { assert forall c :: c in key[1..] ==> c in key; }
      SplitNoDot(key[1..]);
      assert key[0] in key;
      assert [key[0]] + key[1..] == key;
    }
  }

  /** One step `result?.[k]`: undefined stays undefined, a table gives its
      entry (undefined when absent), and a text has no entries. */
  function Step(n: Option<Node>, k: string): (r: Option<Node>)
    ensures r.Some? ==> n.Some? && n.value.Table? && k in n.value.entries && r.value == n.value.entries[k]
    ensures n.Some? && n.value.Table? && k in n.value.entries ==> r.Some?
  {
    match n
    case None => None
    case Some(Text(_)) => None
    case Some(Table(m)) => if k in m then Some(m[k]) else None
  }

  /** The walk along a list of keys from a node. */
  function Walk(n: Option<Node>, keys: seq<string>): Option<Node> {
    if keys == [] then n else Step(Walk(n, keys[..|keys| - 1]), keys[|keys| - 1])
  }

  /** A walk that is undefined after some keys stays undefined for the
      rest: the early return in `t` loses nothing. */
  lemma {:induction false} WalkStaysUndefined(n: Option<Node>, keys: seq<string>, i: nat)
    requires i <= |keys|
    requires Walk(n, keys[..i]) == None
    ensures Walk(n, keys) == None
    decreases |keys| - i
  {
    if i < |keys| {
      assert keys[..i + 1][..i] == keys[..i];
      WalkStaysUndefined(n, keys, i + 1);
    } else {
      assert keys[..i] == keys;
    }
  }

  /** Walking the keys of a nested path through nested tables reaches the
      node stored at the end of it. */
  lemma WalkTwoLevels(n: Node, a: string, b: string, leaf: Node)
    requires n.Table? && a in n.entries && n.entries[a].Table? && b in n.entries[a].entries
    requires n.entries[a].entries[b] == leaf
    ensures Walk(Some(n), [a, b]) == Some(leaf)
  {
    assert [a, b][..1] == [a];
    assert [a][..0] == [];
    assert Walk(Some(n), [a]) == Some(n.entries[a]);
  }

  /** `value || key`: the value when it is defined and truthy, else the key;
      so the result is never falsy unless the key itself is empty, and it is
      always either the value looked up or the key. */
  function OrKey(r: Option<Node>, key: string): (v: Node)
    ensures r.Some? && Truthy(r.value) ==> v == r.value
    ensures !(r.Some? && Truthy(r.value)) ==> v == Text(key)
    ensures key != "" ==> Truthy(v)
    ensures (r.Some? && v == r.value) || v == Text(key)
  {
    if r.Some? && Truthy(r.value) then r.value else Text(key)
  }

  /** What `t(key)` returns in language `l`: the node at the key's path in
      that language's table; when the path is undefined there, the node at
      that path in the English table; either one only when truthy, else the
      key itself. */
  function Translate(tr: Translations, l: Lang, key: string): Node {
    var keys := Split(key);
    var found := Walk(Some(TableFor(tr, l)), keys);
    if found.None? then OrKey(Walk(Some(tr.en), keys), key) else OrKey(found, key)
  }

  /** The English table, walked from its root. */
  function EnglishAt(tr: Translations, key: string): Option<Node> {
    Walk(Some(tr.en), Split(key))
  }

  /** A truthy translation in the current language is returned as is. */
  lemma TranslateFound(tr: Translations, l: Lang, key: string)
    requires Walk(Some(TableFor(tr, l)), Split(key)).Some?
    requires Truthy(Walk(Some(TableFor(tr, l)), Split(key)).value)
    ensures Translate(tr, l, key) == Walk(Some(TableFor(tr, l)), Split(key)).value
  {
  }

  /** A path that leads to an empty text gives the key, even when the
      English table has a text there. */
  lemma TranslateFalsyIsKey(tr: Translations, l: Lang, key: string)
    requires Walk(Some(TableFor(tr, l)), Split(key)) == Some(Text(""))
    ensures Translate(tr, l, key) == Text(key)
  {
  }

  /** A path undefined in the current language falls back to English, and
      to the key when English has nothing truthy there. */
  lemma TranslateFallback(tr: Translations, l: Lang, key: string)
    requires Walk(Some(TableFor(tr, l)), Split(key)).None?
    ensures EnglishAt(tr, key).Some? && Truthy(EnglishAt(tr, key).value) ==> Translate(tr, l, key) == EnglishAt(tr, key).value
    ensures !(EnglishAt(tr, key).Some? && Truthy(EnglishAt(tr, key).value)) ==> Translate(tr, l, key) == Text(key)
  {
  }

  /** In English the fallback changes nothing: the result is the English
      value or the key. */
  lemma TranslateEnglish(tr: Translations, key: string)
    ensures Translate(tr, En, key) == OrKey(EnglishAt(tr, key), key)
  {
  }

  /** The result is never an empty text unless the key is empty. */
  lemma TranslateTruthy(tr: Translations, l: Lang, key: string)
    requires key != ""
    ensures Truthy(Translate(tr, l, key))
  {
  }

  /** A dot-free key in a flat table: its text when present and not empty,
      and otherwise the English text or the key. */
  lemma TranslateFlatKey(tr: Translations, l: Lang, key: string)
    requires '.' !in key
    requires TableFor(tr, l).Table?
    ensures key in TableFor(tr, l).entries && Truthy(TableFor(tr, l).entries[key]) ==>
              Translate(tr, l, key) == TableFor(tr, l).entries[key]
    ensures key !in TableFor(tr, l).entries && tr.en.Table? && key in tr.en.entries && Truthy(tr.en.entries[key]) ==>
              Translate(tr, l, key) == tr.en.entries[key]
  {
    SplitNoDot(key);
    assert [key][..0] == [];
    assert Walk(Some(TableFor(tr, l)), [key]) == Step(Some(TableFor(tr, l)), key);
    assert Walk(Some(tr.en), [key]) == Step(Some(tr.en), key);
  }

  /** The walk over `keys`, written as `t`'s loop: each step looks the key up
      in the node so far, and the first undefined step returns the English
      lookup of the whole path or the key. */
  method T(tr: Translations, l: Lang, key: string) returns (r: Node)
    ensures r == Translate(tr, l, key)
  {
    var keys := Split(key);
    var result := Some(TableFor(tr, l));
    var i := 0;
    while i < |keys|
      invariant 0 <= i <= |keys|
      invariant result == Walk(Some(TableFor(tr, l)), keys[..i])
      invariant result.Some?
    {
      assert keys[..i + 1][..i] == keys[..i];
      result := Step(result, keys[i]);
      if result.None? {
        WalkStaysUndefined(Some(TableFor(tr, l)), keys, i + 1);
        var fallback := Some(tr.en);
        var j := 0;
        while j < |keys|
          invariant 0 <= j <= |keys|
          invariant fallback == Walk(Some(tr.en), keys[..j])
        {
          assert keys[..j + 1][..j] == keys[..j];
          fallback := Step(fallback, keys[j]);
          j := j + 1;
        }
        assert keys[..|keys|] == keys;
        return OrKey(fallback, key);
      }
      i := i + 1;
    }
    assert keys[..|keys|] == keys;
    return OrKey(result, key);
  }

  /** The provider's state: the language, its stored copy and the two
      attributes of the document element it keeps in step. */
  class LanguageProvider {
    var language: Lang
    var stored: Option<Lang>
    var documentLang: string
    var documentDir: string

    /** The document shows the current language and its direction. */
    predicate Valid()
      reads this
    {
      documentLang == Code(language) && documentDir == Dir(language)
    }

    /** Start from the stored language, or English when none is stored, and
        run the direction effect. */
    constructor (stored: Option<Lang>)
      ensures Valid()
      ensures language == (if stored.Some? then stored.value else En)
      ensures this.stored == stored
    {
      language := if stored.Some? then stored.value else En;
      this.stored := stored;
      documentLang := Code(if stored.Some? then stored.value else En);
      documentDir := Dir(if stored.Some? then stored.value else En);
    }

    /** `setLanguage`: switch, store it, and let the effect update the
        document. */
    method SetLanguage(l: Lang)
      modifies this
      ensures Valid()
      ensures language == l && stored == Some(l)
      ensures documentDir == "rtl" <==> l == Ar
    {
      language := l;
      stored := Some(l);
      documentLang := Code(l);
      documentDir := Dir(l);
    }

    /** `t` in the current language. */
    method Lookup(tr: Translations, key: string) returns (r: Node)
      ensures r == Translate(tr, language, key)
    {
      r := T(tr, language, key);
    }
  }
}
