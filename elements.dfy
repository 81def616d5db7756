/**
 The content model shared by both tables: the closed `Language` enumeration,
 the `Element` record (a name and one text per language) and the invariant a
 content table keeps. db.py and main.py each declare these two classes with
 the same fields; they are declared once here.
 */
module Elements {
  import opened Dicts

  datatype Option<T> = None | Some(value: T)

  /** `class Language(str, Enum)`: exactly the two members `en` and `de`. */
  datatype Language = En | De

  /** Every member of the enumeration. */
  function Languages(): (ls: set<Language>)
    ensures forall l: Language :: l in ls
    ensures |ls| == 2
  {
    var ls := {En, De};
    assert forall l: Language :: l in ls by {
      forall l: Language ensures l in ls { assert l == En || l == De; }
    }
    ls
  }

  /** Lookup by value, `Language(s)`: `"en"` and `"de"` name their members, any other string none. */
  function FromValue(s: string): (r: Option<Language>)
    ensures r.Some? <==> s == "en" || s == "de"
    ensures r == Some(En) <==> s == "en"
    ensures r == Some(De) <==> s == "de"
  {
    if s == "en" then Some(En)
    else if s == "de" then Some(De)
    else None
  }

  /** The string value of a member, `Language.en.value`: looking it up gives the member back. */
  function Value(l: Language): (s: string)
    ensures FromValue(s) == Some(l)
  {
    match l
    case En => "en"
    case De => "de"
  }

  /** Values and members correspond one to one. */
  lemma ValueRoundTrip(l: Language, s: string)
    ensures FromValue(Value(l)) == Some(l)
    ensures FromValue(s) == Some(l) <==> Value(l) == s
  {
  }

  /** `class Element(BaseModel)`: the translated texts of one element of the site. */
  datatype Element = Element(name: string, content: map<Language, string>)

  /** The element has a text for every language. */
  ghost predicate Complete(e: Element) {
    forall l: Language :: l in e.content
  }

  /** Every element has a text in `lang`; otherwise `content[lang]` raises `KeyError`. */
  ghost predicate HasLanguage(db: Dict<string, Element>, lang: Language) {
    forall k :: k in db.items ==> lang in db.items[k].content
  }

  /** The invariant of a content table: a proper dict, keyed by element name, every element complete. */
  ghost predicate WellFormedTable(db: Dict<string, Element>) {
    && db.Valid()
    && (forall k :: k in db.items ==> db.items[k].name == k)
    && (forall k :: k in db.items ==> Complete(db.items[k]))
  }

  /** A table keyed by name with a text in both `en` and `de` everywhere is well formed. */
  lemma WellFormedFromBothLanguages(db: Dict<string, Element>)
    requires db.Valid()
    requires forall k :: k in db.items ==> db.items[k].name == k
    requires HasLanguage(db, En) && HasLanguage(db, De)
    ensures WellFormedTable(db)
  {
    forall k, l: Language | k in db.items
      ensures l in db.items[k].content
    {
      assert l == En || l == De;
    }
  }

  /** Assignments `db[k] = Element(name=k, ...)` to distinct keys, each element given an `en` and a `de` text. */
  ghost predicate ContentAssignments(asg: seq<(string, Element)>) {
    && DistinctKeys(asg)
    && (forall i :: 0 <= i < |asg| ==> asg[i].1.name == asg[i].0)
    && (forall i :: 0 <= i < |asg| ==> En in asg[i].1.content && De in asg[i].1.content)
  }

  /**
   Such assignments, run from `{}`, give a well-formed table that lists the keys in
   assignment order and has one entry per assignment.
   */
  lemma TableFromAssignments(asg: seq<(string, Element)>)
    requires ContentAssignments(asg)
    ensures WellFormedTable(Assign(asg))
    ensures |Assign(asg).keys| == |asg|
    ensures forall i :: 0 <= i < |asg| ==> Assign(asg).keys[i] == asg[i].0
    ensures |Assign(asg).items| == |asg|
  {
    var db := Assign(asg);
    AssignDistinct(asg);
    SizeIsKeyCount(db);
    forall k | k in db.items
      ensures db.items[k].name == k
      ensures En in db.items[k].content && De in db.items[k].content
    {
      var i :| 0 <= i < |db.keys| && db.keys[i] == k;
      assert asg[i].0 == k;
    }
    WellFormedFromBothLanguages(db);
  }

  /** A well-formed table can be read in any language. */
  lemma WellFormedHasEveryLanguage(db: Dict<string, Element>, lang: Language)
    requires WellFormedTable(db)
    ensures HasLanguage(db, lang)
  {
  }
}
