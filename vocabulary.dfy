/**
 * The fixed vocabularies of the application (src/supabaseClient.js): eighteen UK
 * curriculum subjects and four key stages. The backend stores them as strings;
 * `SubjectName` and `KeyStageName` give the stored spelling.
 */
module Vocabulary {
  import opened Lists

  datatype Subject =
    | Mathematics | EnglishLanguageAndLiterature | Biology | Chemistry | Physics
    | History | Geography | ModernForeignLanguages | ComputerScience
    | DesignAndTechnology | ArtAndDesign | Music | PE | ReligiousStudies
    | BusinessStudies | Economics | Psychology | Sociology

  datatype KeyStage = KS2 | KS3 | KS4 | KS5

  /** `SUBJECTS`, in the order the pickers list them. */
  const SUBJECTS: seq<Subject> := [
    Mathematics, EnglishLanguageAndLiterature, Biology, Chemistry, Physics,
    History, Geography, ModernForeignLanguages, ComputerScience,
    DesignAndTechnology, ArtAndDesign, Music, PE, ReligiousStudies,
    BusinessStudies, Economics, Psychology, Sociology
  ]

  /** `KEY_STAGES`, in the order the pickers list them. */
  const KEY_STAGES: seq<KeyStage> := [KS2, KS3, KS4, KS5]

  function SubjectName(s: Subject): (r: string)
    ensures |r| > 0
  {
    match s
    case Mathematics => "Mathematics"
    case EnglishLanguageAndLiterature => "English Language & Literature"
    case Biology => "Biology"
    case Chemistry => "Chemistry"
    case Physics => "Physics"
    case History => "History"
    case Geography => "Geography"
    case ModernForeignLanguages => "Modern Foreign Languages"
    case ComputerScience => "Computer Science"
    case DesignAndTechnology => "Design & Technology"
    case ArtAndDesign => "Art & Design"
    case Music => "Music"
    case PE => "PE"
    case ReligiousStudies => "Religious Studies"
    case BusinessStudies => "Business Studies"
    case Economics => "Economics"
    case Psychology => "Psychology"
    case Sociology => "Sociology"
  }

  function KeyStageName(k: KeyStage): (r: string)
    ensures |r| == 3
  {
    match k
    case KS2 => "KS2"
    case KS3 => "KS3"
    case KS4 => "KS4"
    case KS5 => "KS5"
  }

  /** The pickers offer every subject: eighteen in all. */
  lemma SubjectsListed(s: Subject)
    ensures s in SUBJECTS
    ensures |SUBJECTS| == 18
  {
  }

  /** The pickers offer every key stage exactly once: four in all. */
  lemma KeyStagesListed(k: KeyStage)
    ensures k in KEY_STAGES
    ensures |KEY_STAGES| == 4 && NoDup(KEY_STAGES)
  {
    var s := KEY_STAGES;
    assert NoDup(s[3..]);
    assert NoDup(s[2..]);
    assert NoDup(s[1..]);
  }

  /** Distinct subjects are stored under distinct strings, so comparing values compares names. */
  lemma SubjectNameInjective(a: Subject, b: Subject)
    requires SubjectName(a) == SubjectName(b)
    ensures a == b
  {
  }

  /** Distinct key stages are stored under distinct strings. */
  lemma KeyStageNameInjective(a: KeyStage, b: KeyStage)
    requires KeyStageName(a) == KeyStageName(b)
    ensures a == b
  {
  }
}
