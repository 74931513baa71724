/** The server's rules for reconciling a stored resume with an incoming
    multipart submission (server.js), stated as pure functions over the
    resume part of a user document. The class in server.dfy applies them to
    the stored document. */
module Resume {
  import opened Basics
  import opened Text

  datatype Experience = Experience(jobTitle: string, company: string, duration: string, description: string)

  datatype Education = Education(degree: string, institution: string, year: string)

  /** The resume fields of a user document. An `image` of "" stands for a
      document without an image (undefined, null and '' are all falsy there). */
  datatype ResumeRecord = ResumeRecord(
    professionalExperience: seq<Experience>,
    education: seq<Education>,
    skills: seq<string>,
    languages: seq<string>,
    linkedin: string,
    github: string,
    image: string,
    submitted: bool)

  /** A text field of a multipart body as the server sees it: absent, sent
      once (a string), or sent several times (an array of strings). */
  datatype BodyField = Missing | Single(text: string) | Repeated(texts: seq<string>)

  /** JavaScript truthiness of a body field: an array is truthy even when empty. */
  predicate Truthy(f: BodyField) {
    match f
    case Missing => false
    case Single(t) => t != ""
    case Repeated(_) => true
  }

  /** The text `JSON.parse` reads from a present field: `String(array)` joins
      the values with commas. */
  function ParseInput(f: BodyField): string
    requires !f.Missing?
  {
    match f
    case Single(t) => t
    case Repeated(ts) => Join(ts, ",")
  }

  /** What `JSON.parse` makes of a text: an array (with the values the
      document will store), some other JSON value, or a syntax error. */
  datatype JsonOutcome<T> = JsonArray(items: seq<T>) | JsonNonArray | JsonSyntaxError

  /** `JSON.parse`, left uninterpreted. For the two lists of sub-records it
      gives the decoded entries, or `None` when the text does not parse. */
  datatype JsonParser = JsonParser(
    strings: string -> JsonOutcome<string>,
    experiences: string -> Option<seq<Experience>>,
    educations: string -> Option<seq<Education>>)

  /** The fields of a save or submit request. */
  datatype ResumeForm = ResumeForm(
    professionalExperience: BodyField,
    education: BodyField,
    skills: BodyField,
    languages: BodyField,
    linkedin: BodyField,
    github: BodyField)

  /** `text.split(',').map(item => item.trim())`. */
  function TrimmedPieces(text: string): (r: seq<string>)
    ensures |r| == |Split(text, ',')| == Count(text, ',') + 1
    ensures forall i :: 0 <= i < |r| ==> r[i] == Trim(Split(text, ',')[i])
  {
    var pieces := Split(text, ',');
    SplitJoin(text, ',');
    seq(|pieces|, i requires 0 <= i < |pieces| => Trim(pieces[i]))
  }

  /** `parseArrayField(field, existingField)`: the precedence of the decoding
      of a list-of-strings field. `existing` is `existingField`, whose
      `|| []` default makes an absent value an empty list. */
  function ParseArrayField(field: BodyField, existing: Option<seq<string>>,
                           parse: string -> JsonOutcome<string>): (r: seq<string>)
    ensures field.Repeated? ==> r == field.texts
    ensures field.Single? && !AllSpace(field.text) ==>
              match parse(field.text)
              case JsonArray(items) => r == items
              case JsonSyntaxError => r == TrimmedPieces(field.text)
              case JsonNonArray => r == existing.GetOr([])
    ensures field.Missing? || (field.Single? && AllSpace(field.text)) ==> r == existing.GetOr([])
  {
    match field
    case Repeated(texts) => texts
    case Single(text) =>
      TrimEmptyIffAllSpace(text);
      if Trim(text) != "" then
        match parse(text)
        case JsonArray(items) => items
        case JsonSyntaxError => TrimmedPieces(text)
        case JsonNonArray => existing.GetOr([])
      else existing.GetOr([])
    case Missing => existing.GetOr([])
  }

  /** `field ? JSON.parse(field) : current` for a list of sub-records: `None`
      when the parse throws. */
  function ReplaceList<T>(field: BodyField, current: seq<T>, parse: string -> Option<seq<T>>): (r: Option<seq<T>>)
    ensures Truthy(field) ==> r == parse(ParseInput(field))
    ensures !Truthy(field) ==> r == Some(current)
  {
    if Truthy(field) then parse(ParseInput(field)) else Some(current)
  }

  /** `link && link.trim() !== '' ? link.trim() : current`; `None` when the
      field arrived as an array, whose missing `trim` method throws. */
  function ReplaceLink(field: BodyField, current: string): (r: Option<string>)
    ensures r.None? <==> field.Repeated?
    ensures field.Single? && Trim(field.text) != "" ==> r == Some(Trim(field.text))
    ensures field.Missing? || (field.Single? && Trim(field.text) == "") ==> r == Some(current)
  {
    match field
    case Missing => Some(current)
    case Single(text) => if text != "" && Trim(text) != "" then Some(Trim(text)) else Some(current)
    case Repeated(_) => None
  }

  function UploadPath(filename: string): string {
    "uploads/" + filename
  }

  /** The outcome of the save rules: the request fails before anything is
      changed or deleted, or it yields the next record and the image path
      to delete, if any. */
  datatype MergeOutcome = Rejected | Merged(record: ResumeRecord, staleImage: Option<string>)

  predicate ParseFails<T>(field: BodyField, parse: string -> Option<seq<T>>) {
    Truthy(field) && parse(ParseInput(field)).None?
  }

  /** The body of the save handler: the field rules and the image
      replacement, without the write. */
  function MergeResume(current: ResumeRecord, form: ResumeForm, upload: Option<string>, json: JsonParser): (r: MergeOutcome)
    ensures r.Rejected? <==>
              || ParseFails(form.professionalExperience, json.experiences)
              || ParseFails(form.education, json.educations)
              || form.linkedin.Repeated? || form.github.Repeated?
    ensures r.Merged? ==>
              && Some(r.record.professionalExperience)
                 == ReplaceList(form.professionalExperience, current.professionalExperience, json.experiences)
              && Some(r.record.education) == ReplaceList(form.education, current.education, json.educations)
              && r.record.skills == ParseArrayField(form.skills, None, json.strings)
              && r.record.languages == ParseArrayField(form.languages, None, json.strings)
              && Some(r.record.linkedin) == ReplaceLink(form.linkedin, current.linkedin)
              && Some(r.record.github) == ReplaceLink(form.github, current.github)
              && r.record.image == (if upload.Some? then UploadPath(upload.value) else current.image)
              && r.record.submitted == current.submitted
  {
    var experience := ReplaceList(form.professionalExperience, current.professionalExperience, json.experiences);
    var education := ReplaceList(form.education, current.education, json.educations);
    var linkedin := ReplaceLink(form.linkedin, current.linkedin);
    var github := ReplaceLink(form.github, current.github);
    if experience.None? || education.None? || linkedin.None? || github.None? then Rejected
    else
      // `parseArrayField(...) || user.skills`: the parsed value is always an
      // array, and arrays are truthy, so the stored list is never kept.
      var skills := ParseArrayField(form.skills, None, json.strings);
      var languages := ParseArrayField(form.languages, None, json.strings);
      var image := if upload.Some? then UploadPath(upload.value) else current.image;
      var stale := if upload.Some? && current.image != "" then Some(current.image) else None;
      Merged(current.(professionalExperience := experience.value, education := education.value,
                      skills := skills, languages := languages,
                      linkedin := linkedin.value, github := github.value, image := image), stale)
  }

  /** The body of the submit handler: the same rules, then `submitted = true`. */
  function SubmitResume(current: ResumeRecord, form: ResumeForm, upload: Option<string>, json: JsonParser): (r: MergeOutcome)
    ensures r.Merged? ==> r.record.submitted
  {
    match MergeResume(current, form, upload, json)
    case Rejected => Rejected
    case Merged(record, stale) => Merged(record.(submitted := true), stale)
  }

  /** Removal by a `parseInt` result (`None` for NaN): `None` when the index
      is out of range, which the handlers answer with 400. */
  function RemoveAt<T>(s: seq<T>, index: Option<int>): (r: Option<seq<T>>)
    ensures r.Some? <==> index.Some? && 0 <= index.value < |s|
    ensures r.Some? ==> r.value == Splice(s, index.value)
  {
    if index.Some? && 0 <= index.value < |s| then Some(Splice(s, index.value)) else None
  }

  /** The body of the delete-resume handler: the next record and the image
      path to delete, if any. */
  function ResetResume(current: ResumeRecord): (r: (ResumeRecord, Option<string>))
    ensures r.0 == ResumeRecord([], [], [], [], "", "", "", current.submitted)
    ensures r.1.Some? <==> current.image != ""
    ensures r.1.Some? ==> r.1.value == current.image
  {
    var record := current.(professionalExperience := [], education := [], skills := [], languages := [],
                           linkedin := "", github := "");
    if current.image != "" then (record.(image := ""), Some(current.image)) else (record, None)
  }

  // ---------------------------------------------------------------------------
  // Properties of the rules

  /** A save never consults the stored skills and languages: two records that
      differ only there merge to the same lists. */
  lemma SaveReplacesStringLists(a: ResumeRecord, b: ResumeRecord, form: ResumeForm, upload: Option<string>, json: JsonParser)
    requires MergeResume(a, form, upload, json).Merged? && MergeResume(b, form, upload, json).Merged?
    ensures MergeResume(a, form, upload, json).record.skills == MergeResume(b, form, upload, json).record.skills
    ensures MergeResume(a, form, upload, json).record.languages == MergeResume(b, form, upload, json).record.languages
  {
  }

  /** An absent or blank `skills`/`languages` clears the stored list. */
  lemma AbsentStringListBecomesEmpty(current: ResumeRecord, form: ResumeForm, upload: Option<string>, json: JsonParser)
    requires MergeResume(current, form, upload, json).Merged?
    ensures form.skills.Missing? || form.skills == Single("") ==> MergeResume(current, form, upload, json).record.skills == []
    ensures form.languages.Missing? || form.languages == Single("") ==> MergeResume(current, form, upload, json).record.languages == []
  {
  }

  /** What a successful save stores, field by field: a list of sub-records
      is the parsed text when the field is truthy and the stored list
      otherwise; a string list is whatever `parseArrayField` decodes, never
      the stored one; a link is the trimmed text when that is non-empty and
      the stored link otherwise. */
  lemma SavedFields(current: ResumeRecord, form: ResumeForm, upload: Option<string>, json: JsonParser)
    requires MergeResume(current, form, upload, json).Merged?
    ensures var saved := MergeResume(current, form, upload, json).record;
            && (Truthy(form.professionalExperience) ==>
                  json.experiences(ParseInput(form.professionalExperience)) == Some(saved.professionalExperience))
            && (!Truthy(form.professionalExperience) ==> saved.professionalExperience == current.professionalExperience)
            && (Truthy(form.education) ==> json.educations(ParseInput(form.education)) == Some(saved.education))
            && (!Truthy(form.education) ==> saved.education == current.education)
            && saved.skills == ParseArrayField(form.skills, None, json.strings)
            && saved.languages == ParseArrayField(form.languages, None, json.strings)
            && (form.linkedin.Single? && Trim(form.linkedin.text) != "" ==> saved.linkedin == Trim(form.linkedin.text))
            && (!(form.linkedin.Single? && Trim(form.linkedin.text) != "") ==> saved.linkedin == current.linkedin)
            && (form.github.Single? && Trim(form.github.text) != "" ==> saved.github == Trim(form.github.text))
            && (!(form.github.Single? && Trim(form.github.text) != "") ==> saved.github == current.github)
  {
  }

  /** A blank or non-array string list stores an empty list: with no stored
      value to fall back on, `parseArrayField` defaults to `[]`. */
  lemma UndecodableStringListBecomesEmpty(current: ResumeRecord, form: ResumeForm, upload: Option<string>, json: JsonParser)
    requires MergeResume(current, form, upload, json).Merged?
    requires form.skills.Single? && (AllSpace(form.skills.text) || json.strings(form.skills.text).JsonNonArray?)
    ensures MergeResume(current, form, upload, json).record.skills == []
  {
  }

  /** A malformed list of sub-records fails the whole request. */
  lemma MalformedListRejects(current: ResumeRecord, form: ResumeForm, upload: Option<string>, json: JsonParser)
    requires Truthy(form.professionalExperience) || Truthy(form.education)
    requires Truthy(form.professionalExperience) ==> json.experiences(ParseInput(form.professionalExperience)).None?
    requires Truthy(form.education) ==> json.educations(ParseInput(form.education)).None?
    ensures MergeResume(current, form, upload, json) == Rejected
    ensures SubmitResume(current, form, upload, json) == Rejected
  {
  }

  /** Any non-empty text of a list of sub-records, white space only
      included, is truthy and goes to `JSON.parse` instead of keeping the
      stored list; the same blank text for a string list falls back to the
      default. */
  lemma BlankListTextIsParsed<T>(t: string, current: seq<T>, parse: string -> Option<seq<T>>,
                                 existing: seq<string>, strings: string -> JsonOutcome<string>)
    requires t != ""
    ensures ReplaceList(Single(t), current, parse) == parse(t)
    ensures AllSpace(t) ==> ParseArrayField(Single(t), Some(existing), strings) == existing
  {
  }

  /** Image replacement: the new path is stored, and the previous path is
      reported once, only if there was one. Without an upload nothing changes
      and nothing is reported. */
  lemma ImageReplacement(current: ResumeRecord, form: ResumeForm, upload: Option<string>, json: JsonParser)
    requires MergeResume(current, form, upload, json).Merged?
    ensures var r := MergeResume(current, form, upload, json);
            if upload.Some? then
              r.record.image == "uploads/" + upload.value &&
              r.staleImage == (if current.image == "" then None else Some(current.image))
            else
              r.record.image == current.image && r.staleImage == None
  {
  }

  /** Submit applies exactly the save rules and then sets the flag. */
  lemma SubmitIsSaveThenFlag(current: ResumeRecord, form: ResumeForm, upload: Option<string>, json: JsonParser)
    ensures SubmitResume(current, form, upload, json).Rejected? == MergeResume(current, form, upload, json).Rejected?
    ensures MergeResume(current, form, upload, json).Merged? ==>
              SubmitResume(current, form, upload, json) ==
              Merged(MergeResume(current, form, upload, json).record.(submitted := true),
                     MergeResume(current, form, upload, json).staleImage)
  {
  }

  /** Saving the same form twice without an upload is the same as saving it once. */
  lemma SaveIdempotentWithoutUpload(current: ResumeRecord, form: ResumeForm, json: JsonParser)
    requires MergeResume(current, form, None, json).Merged?
    ensures var once := MergeResume(current, form, None, json).record;
            MergeResume(once, form, None, json) == Merged(once, None)
  {
  }

  /** Reset empties the content, keeps `submitted`, reports the image once,
      and a second reset changes nothing and reports nothing. */
  lemma {:induction false} ResetTwice(current: ResumeRecord)
    ensures var (once, stale) := ResetResume(current);
            && once.professionalExperience == [] && once.education == []
            && once.skills == [] && once.languages == []
            && once.linkedin == "" && once.github == "" && once.image == ""
            && once.submitted == current.submitted
            && stale == (if current.image == "" then None else Some(current.image))
            && ResetResume(once) == (once, None)
  {
  }

  /** Neither a save, a submit nor a reset clears `submitted`. (The
      add-education and delete-by-index handlers change only their list, as
      their contracts in `Server` state.) */
  lemma SubmittedIsNeverCleared(current: ResumeRecord, form: ResumeForm, upload: Option<string>, json: JsonParser)
    requires current.submitted
    ensures MergeResume(current, form, upload, json).Merged? ==> MergeResume(current, form, upload, json).record.submitted
    ensures SubmitResume(current, form, upload, json).Merged? ==> SubmitResume(current, form, upload, json).record.submitted
    ensures ResetResume(current).0.submitted
  {
  }

  /** Examples of the comma fallback: pieces are trimmed and empty pieces kept. */
  lemma CommaFallbackExamples()
    ensures TrimmedPieces("a,,b") == ["a", "", "b"]
  {
    var pieces := Split("a,,b", ',');
    SplitExample();
    PiecesAlreadyTrimmed(pieces);
    TrimmedPiecesOfTrimmed("a,,b");
  }

  lemma PiecesAlreadyTrimmed(pieces: seq<string>)
    requires pieces == ["a", "", "b"]
    ensures forall i :: 0 <= i < |pieces| ==> Trim(pieces[i]) == pieces[i]
  {
    TrimKeepsTrimmed("a");
    TrimKeepsTrimmed("");
    TrimKeepsTrimmed("b");
  }

  lemma TrimmedPiecesOfTrimmed(text: string)
    requires forall i :: 0 <= i < |Split(text, ',')| ==> Trim(Split(text, ',')[i]) == Split(text, ',')[i]
    ensures TrimmedPieces(text) == Split(text, ',')
  {
  }

  lemma SplitExample()
    ensures Split("a,,b", ',') == ["a", "", "b"]
  {
    assert "a,,b"[1..] == ",,b" && ",,b"[1..] == ",b" && ",b"[1..] == "b" && "b"[1..] == "";
    assert Split("", ',') == [""];
    assert ['b'] + "" == "b" && ['a'] + "" == "a";
    assert Split("b", ',') == ["b"];
    assert Split(",b", ',') == ["", "b"];
    assert Split(",,b", ',') == ["", "", "b"];
  }
}
