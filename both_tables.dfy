/**
 db.py and main.py hold two independent copies of the content table; main.py
 does not import db.py. These lemmas relate the two tables and apply
 `Api.LanguageKit`, the kit `Api.BuildLanguageKit` returns by its ensures,
 to db.py's table.
 */
module BothTables {
  import opened Dicts
  import opened Elements
  import Db
  import Api

  /** db.py's ten-entry table, built into a kit, gives its ten keys in table order. */
  lemma DbKitKeys(lang: Language)
    ensures WellFormedTable(Assign(Db.Assignments))
    ensures Api.LanguageKit(Assign(Db.Assignments), lang).keys == [
      "powered_by", "image_alt", "switch_language", "application_as", "glance_header",
      "glance_copy", "experience_header", "volunteering_header", "education_header", "trivia_header"]
    ensures |Api.LanguageKit(Assign(Db.Assignments), lang).items| == 10
  {
    Db.ElementDbContents();
    WellFormedHasEveryLanguage(Assign(Db.Assignments), lang);
  }

  /** db.py's table labels the language switch the same way. */
  lemma DbKitSwitchLanguage()
    ensures WellFormedTable(Assign(Db.Assignments)) && "switch_language" in Assign(Db.Assignments).items
    ensures Api.LanguageKit(Assign(Db.Assignments), En).items["switch_language"] == "Wechsle zu Deutsch"
    ensures Api.LanguageKit(Assign(Db.Assignments), De).items["switch_language"] == "Switch to English"
  {
    Db.ElementDbContents();
    WellFormedHasEveryLanguage(Assign(Db.Assignments), En);
    WellFormedHasEveryLanguage(Assign(Db.Assignments), De);
    Db.SwitchLanguageTexts();
  }

  /** main.py's five assignments are db.py's first four and its last, word for word. */
  lemma MainAssignmentsFromDb()
    ensures Api.Assignments == Db.Assignments[..4] + [Db.Assignments[9]]
  {
  }
}
