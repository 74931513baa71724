/** The resume route handlers of server.js over a `User` document held as an
    object whose fields the handlers assign. A handler receives what
    `User.findById` returned (`null` for an unknown id), and `saved` says
    whether the final `user.save()` succeeds. Deleting an image file is
    reported as the path to delete. */
module Server {
  import opened Basics
  import opened Resume

  /** The resume of a freshly created document: the schema's defaults. */
  function NewResume(): ResumeRecord {
    ResumeRecord([], [], [], [], "", "", "", false)
  }

  /** A document of the `User` model. */
  class User {
    var firstName: string
    var lastName: string
    var email: string
    var password: string
    var professionalExperience: seq<Experience>
    var education: seq<Education>
    var skills: seq<string>
    var languages: seq<string>
    var linkedin: string
    var github: string
    var image: string
    var submitted: bool

    /** The resume fields of the document. */
    function Record(): ResumeRecord
      reads this
    {
      ResumeRecord(professionalExperience, education, skills, languages, linkedin, github, image, submitted)
    }

    /** The identity and credential fields, which no resume handler touches. */
    function Identity(): (string, string, string, string)
      reads this
    {
      (firstName, lastName, email, password)
    }

    /** `new User({ firstName, lastName, email, password })`. */
    constructor (firstName: string, lastName: string, email: string, passwordHash: string)
      ensures Identity() == (firstName, lastName, email, passwordHash)
      ensures Record() == NewResume()
    {
      this.firstName, this.lastName, this.email, this.password := firstName, lastName, email, passwordHash;
      professionalExperience, education, skills, languages := [], [], [], [];
      linkedin, github, image := "", "", "";
      submitted := false;
    }

    /** Assigns every resume field of the document. */
    method Assign(r: ResumeRecord)
      modifies this
      ensures Record() == r
      ensures Identity() == old(Identity())
    {
      professionalExperience, education, skills, languages, linkedin, github, image, submitted :=
        r.professionalExperience, r.education, r.skills, r.languages, r.linkedin, r.github, r.image, r.submitted;
    }
  }

  /** The shared body of the save and submit handlers for a document that
      exists: the fields are computed in the handler's order, any throw
      answers 500 before the image step, the old image is reported for
      deletion before the write, and only a successful write changes the
      document. */
  method UpdateResume(user: User, form: ResumeForm, upload: Option<string>, json: JsonParser,
                      submit: bool, saved: bool)
    returns (status: int, deleted: Option<string>)
    modifies user
    ensures user.Identity() == old(user.Identity())
    ensures var outcome := if submit then SubmitResume(old(user.Record()), form, upload, json)
                           else MergeResume(old(user.Record()), form, upload, json);
            match outcome
            case Rejected => status == 500 && deleted == None && user.Record() == old(user.Record())
            case Merged(next, stale) =>
              && deleted == stale
              && (saved ==> status == 200 && user.Record() == next)
              && (!saved ==> status == 500 && user.Record() == old(user.Record()))
  {
    var experience := ReplaceList(form.professionalExperience, user.professionalExperience, json.experiences);
    var education := ReplaceList(form.education, user.education, json.educations);
    var skills := ParseArrayField(form.skills, None, json.strings);
    var languages := ParseArrayField(form.languages, None, json.strings);
    var linkedin := ReplaceLink(form.linkedin, user.linkedin);
    var github := ReplaceLink(form.github, user.github);
    if experience.None? || education.None? || linkedin.None? || github.None? {
      return 500, None;
    }
    var image := user.image;
    deleted := None;
    if upload.Some? {
      if user.image != "" {
        deleted := Some(user.image);
      }
      image := UploadPath(upload.value);
    }
    if !saved {
      return 500, deleted;
    }
    user.Assign(ResumeRecord(experience.value, education.value, skills, languages,
                             linkedin.value, github.value, image, submit || user.submitted));
    status := 200;
  }

  /** PUT /api/users/:id/resume. */
  method SaveResume(user: User?, form: ResumeForm, upload: Option<string>, json: JsonParser, saved: bool)
    returns (status: int, deleted: Option<string>)
    modifies user
    ensures user == null ==> status == 404 && deleted == None
    ensures user != null ==>
              && user.Identity() == old(user.Identity())
              && match MergeResume(old(user.Record()), form, upload, json)
                 case Rejected => status == 500 && deleted == None && user.Record() == old(user.Record())
                 case Merged(next, stale) =>
                   && deleted == stale
                   && (saved ==> status == 200 && user.Record() == next)
                   && (!saved ==> status == 500 && user.Record() == old(user.Record()))
  {
    if user == null {
      return 404, None;
    }
    status, deleted := UpdateResume(user, form, upload, json, false, saved);
  }

  /** POST /api/users/:id/resume/submit. */
  method SubmitResumeRoute(user: User?, form: ResumeForm, upload: Option<string>, json: JsonParser, saved: bool)
    returns (status: int, deleted: Option<string>)
    modifies user
    ensures user == null ==> status == 404 && deleted == None
    ensures user != null ==>
              && user.Identity() == old(user.Identity())
              && match SubmitResume(old(user.Record()), form, upload, json)
                 case Rejected => status == 500 && deleted == None && user.Record() == old(user.Record())
                 case Merged(next, stale) =>
                   && deleted == stale
                   && (saved ==> status == 200 && user.Record() == next && user.submitted)
                   && (!saved ==> status == 500 && user.Record() == old(user.Record()))
  {
    if user == null {
      return 404, None;
    }
    status, deleted := UpdateResume(user, form, upload, json, true, saved);
  }

  /** PUT /api/users/:id/resume/education: the fields are checked before the
      document is looked up, then the entry is pushed at the end. */
  method AddEducation(user: User?, degree: Option<string>, institution: Option<string>, year: Option<string>, saved: bool)
    returns (status: int)
    modifies user
    ensures !(Given(degree) && Given(institution) && Given(year)) ==>
              status == 400 && (user != null ==> user.Record() == old(user.Record()))
    ensures Given(degree) && Given(institution) && Given(year) && user == null ==> status == 404
    ensures user != null ==> user.Identity() == old(user.Identity())
    ensures user != null && Given(degree) && Given(institution) && Given(year) ==>
              if saved then
                status == 200 &&
                user.Record() == old(user.Record()).(education := old(user.education) + [Education(degree.value, institution.value, year.value)])
              else
                status == 500 && user.Record() == old(user.Record())
  {
    if !Given(degree) || !Given(institution) || !Given(year) {
      return 400;
    }
    if user == null {
      return 404;
    }
    if !saved {
      return 500;
    }
    user.education := user.education + [Education(degree.value, institution.value, year.value)];
    status := 200;
  }

  /** DELETE /api/users/:id/resume/experience/:index; `index` is the
      `parseInt` result, `None` for NaN. */
  method DeleteExperience(user: User?, index: Option<int>, saved: bool)
    returns (status: int)
    modifies user
    ensures user == null ==> status == 404
    ensures user != null ==>
              && user.Identity() == old(user.Identity())
              && match RemoveAt(old(user.professionalExperience), index)
                 case None => status == 400 && user.Record() == old(user.Record())
                 case Some(rest) =>
                   if saved then status == 200 && user.Record() == old(user.Record()).(professionalExperience := rest)
                   else status == 500 && user.Record() == old(user.Record())
  {
    if user == null {
      return 404;
    }
    if index.Some? && index.value >= 0 && index.value < |user.professionalExperience| {
      if !saved {
        return 500;
      }
      user.professionalExperience := Splice(user.professionalExperience, index.value);
      status := 200;
    } else {
      status := 400;
    }
  }

  /** DELETE /api/users/:id/resume/education/:index. */
  method DeleteEducation(user: User?, index: Option<int>, saved: bool)
    returns (status: int)
    modifies user
    ensures user == null ==> status == 404
    ensures user != null ==>
              && user.Identity() == old(user.Identity())
              && match RemoveAt(old(user.education), index)
                 case None => status == 400 && user.Record() == old(user.Record())
                 case Some(rest) =>
                   if saved then status == 200 && user.Record() == old(user.Record()).(education := rest)
                   else status == 500 && user.Record() == old(user.Record())
  {
    if user == null {
      return 404;
    }
    if index.Some? && index.value >= 0 && index.value < |user.education| {
      if !saved {
        return 500;
      }
      user.education := Splice(user.education, index.value);
      status := 200;
    } else {
      status := 400;
    }
  }

  /** DELETE /api/users/:id/resume: the content fields are emptied and the
      image, if any, is reported for deletion before the write. */
  method DeleteResume(user: User?, saved: bool)
    returns (status: int, deleted: Option<string>)
    modifies user
    ensures user == null ==> status == 404 && deleted == None
    ensures user != null ==>
              && user.Identity() == old(user.Identity())
              && deleted == ResetResume(old(user.Record())).1
              && (saved ==> status == 200 && user.Record() == ResetResume(old(user.Record())).0)
              && (!saved ==> status == 500 && user.Record() == old(user.Record()))
  {
    if user == null {
      return 404, None;
    }
    deleted := None;
    if user.image != "" {
      deleted := Some(user.image);
    }
    if !saved {
      return 500, deleted;
    }
    user.Assign(ResetResume(user.Record()).0);
    status := 200;
  }
}
