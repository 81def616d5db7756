/**
 main.py: its own five-entry content table and the `/elements/{language}`
 handler `get_element`, which builds the language kit, the flat mapping from
 every key of the table to that element's text in the requested language.
 */
module Api {
  import opened Dicts
  import opened Elements

  const PoweredBy := Element("powered_by", map[
    En := "This CV is built with FastAPI, Vue and Tailwind CSS",
    De := "Dieses CV wurde mit FastAPI, Vue und Tailwind CSS erschaffen"])
  const ImageAlt := Element("image_alt", map[
    En := "Profile picture of Tom Wolfskämpf",
    De := "Profilbild von Tom Wolfskämpf"])
  const SwitchLanguage := Element("switch_language", map[
    En := "Wechsle zu Deutsch",
    De := "Switch to English"])
  const ApplicationAs := Element("application_as", map[
    En := "Application as Backend-Python-Developer",
    De := "Bewerbung als Backend-Python-Entwickler"])
  const TriviaHeader := Element("trivia_header", map[
    En := "Trivia",
    De := "Trivia"])

  /**
   The assignments `element_db[key] = element` of main.py, in order; the loaded
   `element_db` is `Assign(Assignments)`.
   */
  const Assignments: seq<(string, Element)> := [
    ("powered_by", PoweredBy),
    ("image_alt", ImageAlt),
    ("switch_language", SwitchLanguage),
    ("application_as", ApplicationAs),
    ("trivia_header", TriviaHeader)]

  /** Loading main.py: `element_db = {}`, then one assignment per element. */
  method InitElementDb() returns (elementDb: Dict<string, Element>)
    ensures elementDb == Assign(Assignments)
  {
    elementDb := Empty();
    assert Assignments[..0] == [];
    elementDb := elementDb.Put("powered_by", PoweredBy);
    AssignStep(Assignments, 1);
    elementDb := elementDb.Put("image_alt", ImageAlt);
    AssignStep(Assignments, 2);
    elementDb := elementDb.Put("switch_language", SwitchLanguage);
    AssignStep(Assignments, 3);
    elementDb := elementDb.Put("application_as", ApplicationAs);
    AssignStep(Assignments, 4);
    elementDb := elementDb.Put("trivia_header", TriviaHeader);
    AssignStep(Assignments, 5);
    assert Assignments[..5] == Assignments;
  }

  /** Each key is assigned once, under the element's own name, with an `en` and a `de` text. */
  lemma AssignmentsWellFormed()
    ensures ContentAssignments(Assignments)
  {
  }

  /**
   The loaded table keeps the content-table invariant, lists these keys in this
   insertion order, and has exactly five entries.
   */
  lemma ElementDbContents()
    ensures WellFormedTable(Assign(Assignments))
    ensures Assign(Assignments).keys == [
      "powered_by", "image_alt", "switch_language", "application_as", "trivia_header"]
    ensures |Assign(Assignments).items| == 5
  {
    assert WellFormedTable(Assign(Assignments)) by {
      AssignmentsWellFormed();
      TableFromAssignments(Assignments);
    }
    assert Assign(Assignments).keys == [
      "powered_by", "image_alt", "switch_language", "application_as", "trivia_header"] by {
      AssignmentsWellFormed();
      AssignKeys(Assignments);
    }
    assert |Assign(Assignments).items| == 5 by {
      AssignmentsWellFormed();
      TableFromAssignments(Assignments);
    }
  }

  /** The `KeyError` raised by `value.content[language]` when an element has no text in `language`. */
  datatype KeyError = KeyError(key: Language)

  datatype Result<T> = Ok(value: T) | Err(error: KeyError)

  /**
   The assignments `language_kit[key] = value.content[lang]` for the first `n` keys of `db`,
   in iteration order; since a dict lists each key once, no key is assigned twice.
   */
  function KitAssignments(db: Dict<string, Element>, lang: Language, n: nat): (asg: seq<(string, string)>)
    requires db.Valid() && n <= |db.keys|
    requires forall j :: 0 <= j < n ==> lang in db.items[db.keys[j]].content
    ensures DistinctKeys(asg)
  {
    seq(n, j requires 0 <= j < n => (db.keys[j], db.items[db.keys[j]].content[lang]))
  }

  /** One more turn of the loop assigns one more key. */
  lemma KitAssignmentsStep(db: Dict<string, Element>, lang: Language, n: nat)
    requires db.Valid() && n < |db.keys|
    requires forall j :: 0 <= j <= n ==> lang in db.items[db.keys[j]].content
    ensures Assign(KitAssignments(db, lang, n + 1))
         == Assign(KitAssignments(db, lang, n)).Put(db.keys[n], db.items[db.keys[n]].content[lang])
  {
    var longer := KitAssignments(db, lang, n + 1);
    AssignStep(longer, n + 1);
    assert longer[..n + 1] == longer;
    assert longer[..n] == KitAssignments(db, lang, n);
  }

  /**
   The language kit of `db` in `lang`: the dict the loop of `get_element` fills.
   It has the keys of `db` in the same order, and under each key the element's text in `lang`.
   */
  function LanguageKit(db: Dict<string, Element>, lang: Language): (kit: Dict<string, string>)
    requires db.Valid() && HasLanguage(db, lang)
    ensures kit.Valid()
    ensures kit.keys == db.keys
    ensures kit.items.Keys == db.items.Keys
    ensures forall k :: k in db.items ==> kit.items[k] == db.items[k].content[lang]
  {
    var asg := KitAssignments(db, lang, |db.keys|);
    AssignDistinct(asg);
    var kit := Assign(asg);
    assert kit.keys == db.keys;
    forall k | k in db.items
      ensures kit.items[k] == db.items[k].content[lang]
    {
      var i :| 0 <= i < |db.keys| && db.keys[i] == k;
      assert asg[i].0 == k;
    }
    kit
  }

  /**
   The loop of `get_element`, over any table: a fresh dict receives, key by key in
   iteration order, the element's text in `lang`. The table itself is only read.
   It fails with `KeyError(lang)` exactly when some element has no text in `lang`.
   */
  method BuildLanguageKit(db: Dict<string, Element>, lang: Language) returns (r: Result<Dict<string, string>>)
    requires db.Valid()
    ensures r.Ok? <==> HasLanguage(db, lang)
    ensures r.Ok? ==> r.value == LanguageKit(db, lang)
    ensures r.Err? ==> r.error == KeyError(lang)
  {
    var languageKit := Empty();
    for i := 0 to |db.keys|
      invariant forall j :: 0 <= j < i ==> lang in db.items[db.keys[j]].content
      invariant languageKit == Assign(KitAssignments(db, lang, i))
    {
      var key := db.keys[i];
      var value := db.items[key];
      if lang !in value.content {
        return Err(KeyError(lang));
      }
      KitAssignmentsStep(db, lang, i);
      languageKit := languageKit.Put(key, value.content[lang]);
    }
    assert HasLanguage(db, lang) by {
      forall k | k in db.items ensures lang in db.items[k].content {
        var i :| 0 <= i < |db.keys| && db.keys[i] == k;
      }
    }
    return Ok(languageKit);
  }

  /** `GET /elements/{language}`: the kit of main.py's table; for this table it never raises. */
  method GetElement(language: Language) returns (r: Result<Dict<string, string>>)
    ensures Assign(Assignments).Valid() && HasLanguage(Assign(Assignments), language)
    ensures r == Ok(LanguageKit(Assign(Assignments), language))
  {
    ElementDbContents();
    WellFormedHasEveryLanguage(Assign(Assignments), language);
    r := BuildLanguageKit(Assign(Assignments), language);
  }

  /** On a well-formed table every language yields a kit, and all kits have the same keys in the same order. */
  lemma KitsShareKeys(db: Dict<string, Element>, l1: Language, l2: Language)
    requires WellFormedTable(db)
    ensures HasLanguage(db, l1) && HasLanguage(db, l2)
    ensures LanguageKit(db, l1).keys == LanguageKit(db, l2).keys
    ensures LanguageKit(db, l1).items.Keys == LanguageKit(db, l2).items.Keys
  {
    WellFormedHasEveryLanguage(db, l1);
    WellFormedHasEveryLanguage(db, l2);
  }

  /** main.py's kit, in either language, has exactly its five keys, in table order. */
  lemma MainKitKeys(lang: Language)
    ensures WellFormedTable(Assign(Assignments))
    ensures LanguageKit(Assign(Assignments), lang).keys
         == ["powered_by", "image_alt", "switch_language", "application_as", "trivia_header"]
    ensures |LanguageKit(Assign(Assignments), lang).items| == 5
  {
    ElementDbContents();
    WellFormedHasEveryLanguage(Assign(Assignments), lang);
  }

  /** The English kit offers the switch to German, labelled in German, and the other way round. */
  lemma MainKitSwitchLanguage()
    ensures WellFormedTable(Assign(Assignments)) && "switch_language" in Assign(Assignments).items
    ensures LanguageKit(Assign(Assignments), En).items["switch_language"] == "Wechsle zu Deutsch"
    ensures LanguageKit(Assign(Assignments), De).items["switch_language"] == "Switch to English"
  {
    ElementDbContents();
    WellFormedHasEveryLanguage(Assign(Assignments), En);
    WellFormedHasEveryLanguage(Assign(Assignments), De);
    AssignmentsWellFormed();
    AssignLookup(Assignments, 2);
  }
}
