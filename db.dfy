/**
 The ten-entry content table of db.py. Loading the module starts from an
 empty dict and assigns one element per key, in the order of `Assignments`;
 `InitElementDb` performs those assignments one statement at a time.
 */
module Db {
  import opened Dicts
  import opened Elements

  const PoweredBy := Element("powered_by", map[
    En := "This CV is built with FastAPI, Vue and Tailwind CSS",
    De := "Dieses CV wurde mit FastAPI, Vue und Tailwind CSS erschaffen"])
  const ImageAlt := Element("image_alt", map[
    En := "Profile picture of Tom Wolfskämpf",
    De := "Profilbild von Tom Wolfskämpf"])
  const SwitchLanguage := Element("switch_language", map[
    En := "Wechsle zu Deutsch",
    De := "Switch to English"])
  const ApplicationAs := Element("application_as", map[
    En := "Application as Backend-Python-Developer",
    De := "Bewerbung als Backend-Python-Entwickler"])
  const GlanceHeader := Element("glance_header", map[
    En := "At a glance",
    De := "Auf einen Blick"])
  // The introduction paragraphs are long HTML; only their opening words are kept.
  const GlanceCopy := Element("glance_copy", map[
    En := "Hi! 👋 I'm Tom, 25 years old. …",
    De := "Hi! 👋 Ich bin Tom, 25 Jahre alt, …"])
  const ExperienceHeader := Element("experience_header", map[
    En := "Experience",
    De := "Erfahrung"])
  const VolunteeringHeader := Element("volunteering_header", map[
    En := "Volunteering Experience",
    De := "Ehrenamtliche Erfahrung"])
  const EducationHeader := Element("education_header", map[
    En := "Education",
    De := "Ausbildung"])
  const TriviaHeader := Element("trivia_header", map[
    En := "Trivia",
    De := "Trivia"])

  /**
   The assignments `element_db[key] = element` of the module, in order; the loaded
   `element_db` is `Assign(Assignments)`, the dict they build from `{}`.
   */
  const Assignments: seq<(string, Element)> := [
    ("powered_by", PoweredBy),
    ("image_alt", ImageAlt),
    ("switch_language", SwitchLanguage),
    ("application_as", ApplicationAs),
    ("glance_header", GlanceHeader),
    ("glance_copy", GlanceCopy),
    ("experience_header", ExperienceHeader),
    ("volunteering_header", VolunteeringHeader),
    ("education_header", EducationHeader),
    ("trivia_header", TriviaHeader)]

  /** Loading db.py: `element_db = {}`, then one assignment per element. */
  method InitElementDb() returns (elementDb: Dict<string, Element>)
    ensures elementDb == Assign(Assignments)
  {
    elementDb := Empty();
    assert Assignments[..0] == [];
    elementDb := elementDb.Put("powered_by", PoweredBy);
    AssignStep(Assignments, 1);
    elementDb := elementDb.Put("image_alt", ImageAlt);
    AssignStep(Assignments, 2);
    elementDb := elementDb.Put("switch_language", SwitchLanguage);
    AssignStep(Assignments, 3);
    elementDb := elementDb.Put("application_as", ApplicationAs);
    AssignStep(Assignments, 4);
    elementDb := elementDb.Put("glance_header", GlanceHeader);
    AssignStep(Assignments, 5);
    elementDb := elementDb.Put("glance_copy", GlanceCopy);
    AssignStep(Assignments, 6);
    elementDb := elementDb.Put("experience_header", ExperienceHeader);
    AssignStep(Assignments, 7);
    elementDb := elementDb.Put("volunteering_header", VolunteeringHeader);
    AssignStep(Assignments, 8);
    elementDb := elementDb.Put("education_header", EducationHeader);
    AssignStep(Assignments, 9);
    elementDb := elementDb.Put("trivia_header", TriviaHeader);
    AssignStep(Assignments, 10);
    assert Assignments[..10] == Assignments;
  }

  /** Each key is assigned once, under the element's own name, with an `en` and a `de` text. */
  lemma AssignmentsWellFormed()
    ensures ContentAssignments(Assignments)
  {
  }

  /**
   The loaded table keeps the content-table invariant, lists these keys in this
   insertion order, and has exactly ten entries.
   */
  lemma ElementDbContents()
    ensures WellFormedTable(Assign(Assignments))
    ensures Assign(Assignments).keys == [
      "powered_by", "image_alt", "switch_language", "application_as", "glance_header",
      "glance_copy", "experience_header", "volunteering_header", "education_header", "trivia_header"]
    ensures |Assign(Assignments).items| == 10
  {
    assert WellFormedTable(Assign(Assignments)) by {
      AssignmentsWellFormed();
      TableFromAssignments(Assignments);
    }
    assert Assign(Assignments).keys == [
      "powered_by", "image_alt", "switch_language", "application_as", "glance_header",
      "glance_copy", "experience_header", "volunteering_header", "education_header", "trivia_header"] by {
      AssignmentsWellFormed();
      AssignKeys(Assignments);
    }
    assert |Assign(Assignments).items| == 10 by {
      AssignmentsWellFormed();
      TableFromAssignments(Assignments);
    }
  }

  /** The language switch is labelled in the language it switches to. */
  lemma SwitchLanguageTexts()
    ensures "switch_language" in Assign(Assignments).items
    ensures Assign(Assignments).items["switch_language"].content
         == map[En := "Wechsle zu Deutsch", De := "Switch to English"]
  {
    AssignmentsWellFormed();
    AssignLookup(Assignments, 2);
  }

  /** `trivia_header` reads the same in both languages. */
  lemma TriviaHeaderSameText()
    ensures "trivia_header" in Assign(Assignments).items
    ensures Assign(Assignments).items["trivia_header"].content == map[En := "Trivia", De := "Trivia"]
  {
    AssignmentsWellFormed();
    AssignLookup(Assignments, 9);
  }
}
