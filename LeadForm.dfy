/** The lead-capture form engine behind `QualifiedForm` (the discovery-call form) and
    `DisqualifiedForm` (the consultation-booking form). Both components hold the same state
    (`formData`, an optional file, `isSubmitting`, `submitStatus`), validate against a static
    table of required fields, post the fields with a fixed access key and subject to the form
    relay, and turn the relay's answer into a status string that drives two banners. Here the
    two are one engine parameterised by a `Schema`, instantiated as `Qualified` and
    `Disqualified`. */
module LeadForm {
  import opened Common
  import opened Strings
  import opened FormRecord

  // ---------------------------------------------------------------------------
  // Schemas
  // ---------------------------------------------------------------------------

  /** One row of `REQUIRED_FIELDS`. */
  datatype FieldRule = FieldRule(name: string, required: bool)

  datatype Schema = Schema(
    rules: seq<FieldRule>,       // REQUIRED_FIELDS, in declaration order; also the keys of formData
    emailField: Option<string>,  // the field that must also pass isValidEmail
    accessKey: string,           // appended first as `access_key`
    subject: string,             // appended second as `subject`
    attachmentKey: string)       // key of the optional file in the payload

  predicate DistinctNames(rules: seq<FieldRule>)
  {
    forall i, j | 0 <= i < j < |rules| :: rules[i].name != rules[j].name
  }

  /** `DisqualifiedForm`: seven required fields, optional notes, and the e-mail check. */
  const Disqualified: Schema := Schema(
    [ FieldRule("name", true), FieldRule("email", true), FieldRule("phone", true),
      FieldRule("instagramUser", true), FieldRule("revenueLastMonth", true),
      FieldRule("adSpendLastMonth", true), FieldRule("upcomingCollections", true),
      FieldRule("additionalNotes", false) ],
    Some("email"),
    "412ac78b-9afd-41dc-ad57-f24e92ecf010",
    "Brand Intake Form Submission",
    "transactionScreenshot")

  /** `QualifiedForm`: five required fields, optional extra information, no format check. */
  const Qualified: Schema := Schema(
    [ FieldRule("name", true), FieldRule("phoneNumber", true), FieldRule("role", true),
      FieldRule("brandIGUsername", true), FieldRule("businessGoals", true),
      FieldRule("extraInfo", false) ],
    None,
    "8d917ff9-b74d-4901-adf6-2adeb2eb9793",
    "Contact Form Submission",
    "screenshot")

  lemma SchemasWellFormed()
    ensures DistinctNames(Disqualified.rules) && DistinctNames(Qualified.rules)
  {
  }

  /** Every field of the schema is a key of the form data. */
  predicate Conforms(schema: Schema, data: Record)
  {
    forall i | 0 <= i < |schema.rules| :: HasKey(data, schema.rules[i].name)
  }

  /** The value of a field (empty for a key the record lacks; every key a form reads is
      present, see `Conforms`). */
  function Field(data: Record, name: string): string
  {
    match Lookup(data, name)
    case Some(v) => v
    case None => ""
  }

  /** The initial `formData` and the one a successful submission restores: every field empty. */
  function Blank(schema: Schema): (r: Record)
    requires DistinctNames(schema.rules)
    ensures DistinctKeys(r) && Conforms(schema, r) && |r| == |schema.rules|
    ensures forall i | 0 <= i < |schema.rules| :: Field(r, schema.rules[i].name) == ""
  {
    var r := seq(|schema.rules|, i requires 0 <= i < |schema.rules| => Entry(schema.rules[i].name, ""));
    forall i | 0 <= i < |schema.rules| ensures HasKey(r, schema.rules[i].name) && Field(r, schema.rules[i].name) == "" {
      LookupAt(r, i);
    }
    r
  }

  // ---------------------------------------------------------------------------
  // The e-mail pattern /^[^\s@]+@[^\s@]+\.[^\s@]+$/
  // ---------------------------------------------------------------------------

  /** A character of the class `[^\s@]`. */
  predicate EmailChar(c: char)
  {
    !IsSpace(c) && c != '@'
  }

  /** `s[lo..hi]` is a non-empty run of `[^\s@]`. */
  predicate EmailRun(s: string, lo: nat, hi: nat)
  {
    lo < hi <= |s| && forall k | lo <= k < hi :: EmailChar(s[k])
  }

  /** An `@` at `i` and a `.` at `j` cut `s` into three non-empty runs of `[^\s@]`. */
  predicate EmailSplit(s: string, i: nat, j: nat)
  {
    i < j < |s| && s[i] == '@' && s[j] == '.'
    && EmailRun(s, 0, i) && EmailRun(s, i + 1, j) && EmailRun(s, j + 1, |s|)
  }

  /** The strings the regular expression accepts, by its own structure. */
  ghost predicate MatchesEmailPattern(s: string)
  {
    exists i: nat, j: nat :: EmailSplit(s, i, j)
  }

  /** `isValidEmail`: no white space, exactly one `@` with something before it, and after it
      a `.` that is neither the first nor the last character of the domain. */
  function IsValidEmail(s: string): (b: bool)
    ensures b ==> 5 <= |s| && s[0] != '@' && s[|s| - 1] != '@'
  {
    var at := IndexOf(s, '@');
    && NoSpace(s)
    && 0 < at < |s|
    && '@' !in s[at + 1..]
    && exists j | at + 1 < j < |s| - 1 :: s[j] == '.'
  }

  /** The character-level reading of `isValidEmail` accepts exactly what the pattern accepts. */
  lemma EmailPatternIff(s: string)
    ensures IsValidEmail(s) <==> MatchesEmailPattern(s)
  {
    if IsValidEmail(s) {
      var at := IndexOf(s, '@');
      var j :| at + 1 < j < |s| - 1 && s[j] == '.';
      forall k | at < k < |s| ensures s[k] != '@' {
        assert s[k] == s[at + 1..][k - at - 1];
      }
      assert EmailSplit(s, at, j);
    }
    if MatchesEmailPattern(s) {
      var i: nat, j: nat :| EmailSplit(s, i, j);
      assert !IsSpace('@') && !IsSpace('.');
      forall k | 0 <= k < |s| ensures !IsSpace(s[k]) && (k != i ==> s[k] != '@') {
        if k < i {
          assert EmailChar(s[k]);
        } else if i < k < j {
          assert EmailChar(s[k]);
        } else if j < k {
          assert EmailChar(s[k]);
        }
      }
      IndexOfUnique(s, '@', i);
      var rest := s[i + 1..];
      forall k | 0 <= k < |rest| ensures rest[k] != '@' {
        assert rest[k] == s[i + 1 + k];
      }
    }
  }

  /** The address is tested untrimmed: white space at either end makes it invalid. */
  lemma PaddedEmailRejected(s: string)
    requires |s| > 0 && (IsSpace(s[0]) || IsSpace(s[|s| - 1]))
    ensures !IsValidEmail(s)
  {
  }

  /** Without an `@` nothing is an address. */
  lemma NoAtRejected(s: string)
    requires '@' !in s
    ensures !IsValidEmail(s)
  {
  }

  lemma NotAnEmail()
    ensures !IsValidEmail("not-an-email")
  {
    var s := "not-an-email";
    forall k | 0 <= k < |s| ensures s[k] != '@' {
    }
    NoAtRejected(s);
  }

  // ---------------------------------------------------------------------------
  // Validity: REQUIRED_FIELDS.every(...)
  // ---------------------------------------------------------------------------

  /** The callback that `every` applies to one rule of the table. */
  predicate FieldOk(schema: Schema, rule: FieldRule, data: Record)
  {
    if !rule.required then true
    else
      var value := Field(data, rule.name);
      if IsBlank(value) then false
      else if schema.emailField == Some(rule.name) then IsValidEmail(value)
      else |Trim(value)| > 0
  }

  /** `every` over the rules from position `from` on. */
  function AllFieldsOk(schema: Schema, data: Record, from: nat): bool
    requires from <= |schema.rules|
    decreases |schema.rules| - from
  {
    if from == |schema.rules| then true
    else FieldOk(schema, schema.rules[from], data) && AllFieldsOk(schema, data, from + 1)
  }

  /** `isFormValid`. */
  predicate IsFormValid(schema: Schema, data: Record)
  {
    AllFieldsOk(schema, data, 0)
  }

  /** What the table demands of the field at position `i`: a required field holds a character
      other than white space (so `trim()` leaves something), and the e-mail field, where the
      schema has one, is a valid address as typed. */
  predicate Requirement(schema: Schema, data: Record, i: nat)
    requires i < |schema.rules|
  {
    var rule := schema.rules[i];
    rule.required ==>
      !AllSpace(Field(data, rule.name))
      && (schema.emailField == Some(rule.name) ==> IsValidEmail(Field(data, rule.name)))
  }

  lemma FieldOkIff(schema: Schema, data: Record, i: nat)
    requires i < |schema.rules|
    ensures FieldOk(schema, schema.rules[i], data) == Requirement(schema, data, i)
  {
  }

  lemma AllFieldsOkStep(schema: Schema, data: Record, from: nat)
    requires from < |schema.rules|
    ensures AllFieldsOk(schema, data, from) ==
      (Requirement(schema, data, from) && AllFieldsOk(schema, data, from + 1))
  {
    FieldOkIff(schema, data, from);
  }

  lemma {:induction false} AllFieldsOkIff(schema: Schema, data: Record, from: nat)
    requires from <= |schema.rules|
    ensures AllFieldsOk(schema, data, from) <==>
      forall i | from <= i < |schema.rules| :: Requirement(schema, data, i)
    decreases |schema.rules| - from
  {
    if from < |schema.rules| {
      AllFieldsOkIff(schema, data, from + 1);
      AllFieldsOkStep(schema, data, from);
      if forall i | from + 1 <= i < |schema.rules| :: Requirement(schema, data, i) {
        forall i | from <= i < |schema.rules| && Requirement(schema, data, from)
          ensures Requirement(schema, data, i)
        {
        }
      }
    }
  }

  /** A form is valid exactly when every required field has non-white-space content and the
      e-mail field, where the schema has one, is a valid address. */
  lemma FormValidIff(schema: Schema, data: Record)
    ensures IsFormValid(schema, data) <==>
      forall i | 0 <= i < |schema.rules| :: Requirement(schema, data, i)
  {
    AllFieldsOkIff(schema, data, 0);
  }

  /** An optional field never affects validity: changing it leaves the verdict as it was. */
  lemma OptionalFieldIrrelevant(schema: Schema, data: Record, i: nat, value: string)
    requires Conforms(schema, data) && DistinctNames(schema.rules)
    requires i < |schema.rules| && !schema.rules[i].required
    ensures Conforms(schema, Put(data, schema.rules[i].name, value))
    ensures IsFormValid(schema, Put(data, schema.rules[i].name, value)) == IsFormValid(schema, data)
  {
    var data' := Put(data, schema.rules[i].name, value);
    assert Conforms(schema, data') by {
      forall m | 0 <= m < |schema.rules| ensures HasKey(data', schema.rules[m].name) {
        assert Lookup(data', schema.rules[m].name).Some?;
      }
    }
    FormValidIff(schema, data);
    FormValidIff(schema, data');
    forall m | 0 <= m < |schema.rules| ensures Requirement(schema, data', m) == Requirement(schema, data, m) {
      if m != i {
        assert Field(data', schema.rules[m].name) == Field(data, schema.rules[m].name);
      }
    }
  }

  /** The disqualified form is valid iff its seven required fields are non-blank and the
      e-mail address, as typed, is valid. */
  lemma DisqualifiedValidity(data: Record)
    ensures IsFormValid(Disqualified, data) <==>
      && !AllSpace(Field(data, "name")) && !AllSpace(Field(data, "email"))
      && !AllSpace(Field(data, "phone")) && !AllSpace(Field(data, "instagramUser"))
      && !AllSpace(Field(data, "revenueLastMonth")) && !AllSpace(Field(data, "adSpendLastMonth"))
      && !AllSpace(Field(data, "upcomingCollections"))
      && IsValidEmail(Field(data, "email"))
  {
    DisqualifiedUnfolded(data);
    DisqualifiedRequirements(data);
  }

  /** `every` over the eight rules of the disqualified form, one step per rule. */
  lemma DisqualifiedUnfolded(data: Record)
    ensures IsFormValid(Disqualified, data) <==>
      && Requirement(Disqualified, data, 0) && Requirement(Disqualified, data, 1)
      && Requirement(Disqualified, data, 2) && Requirement(Disqualified, data, 3)
      && Requirement(Disqualified, data, 4) && Requirement(Disqualified, data, 5)
      && Requirement(Disqualified, data, 6) && Requirement(Disqualified, data, 7)
  {
    ValidIffEight(Disqualified, data);
  }

  /** `every` over a table of eight rules, spelt out. */
  lemma ValidIffEight(schema: Schema, data: Record)
    requires |schema.rules| == 8
    ensures IsFormValid(schema, data) <==>
      && Requirement(schema, data, 0) && Requirement(schema, data, 1)
      && Requirement(schema, data, 2) && Requirement(schema, data, 3)
      && Requirement(schema, data, 4) && Requirement(schema, data, 5)
      && Requirement(schema, data, 6) && Requirement(schema, data, 7)
  {
    FormValidIff(schema, data);
    if && Requirement(schema, data, 0) && Requirement(schema, data, 1)
       && Requirement(schema, data, 2) && Requirement(schema, data, 3)
       && Requirement(schema, data, 4) && Requirement(schema, data, 5)
       && Requirement(schema, data, 6) && Requirement(schema, data, 7)
    {
      forall i | 0 <= i < 8 ensures Requirement(schema, data, i) {
        assert i == 0 || i == 1 || i == 2 || i == 3 || i == 4 || i == 5 || i == 6 || i == 7;
      }
    }
  }

  lemma DisqualifiedRequirements(data: Record)
    ensures Requirement(Disqualified, data, 0) == !AllSpace(Field(data, "name"))
    ensures Requirement(Disqualified, data, 1) ==
      (!AllSpace(Field(data, "email")) && IsValidEmail(Field(data, "email")))
    ensures Requirement(Disqualified, data, 2) == !AllSpace(Field(data, "phone"))
    ensures Requirement(Disqualified, data, 3) == !AllSpace(Field(data, "instagramUser"))
    ensures Requirement(Disqualified, data, 4) == !AllSpace(Field(data, "revenueLastMonth"))
    ensures Requirement(Disqualified, data, 5) == !AllSpace(Field(data, "adSpendLastMonth"))
    ensures Requirement(Disqualified, data, 6) == !AllSpace(Field(data, "upcomingCollections"))
    ensures Requirement(Disqualified, data, 7)
  {
    var e := "email";
    assert "name"[0] != e[0] && "phone"[0] != e[0] && "instagramUser"[0] != e[0];
    assert "revenueLastMonth"[0] != e[0] && "adSpendLastMonth"[0] != e[0];
    assert "upcomingCollections"[0] != e[0];
    PlainRequirement(Disqualified, data, 0);
    EmailRequirement(Disqualified, data, 1);
    PlainRequirement(Disqualified, data, 2);
    PlainRequirement(Disqualified, data, 3);
    PlainRequirement(Disqualified, data, 4);
    PlainRequirement(Disqualified, data, 5);
    PlainRequirement(Disqualified, data, 6);
  }

  /** A required field without a format check must be non-blank. */
  lemma PlainRequirement(schema: Schema, data: Record, i: nat)
    requires i < |schema.rules| && schema.rules[i].required
    requires schema.emailField != Some(schema.rules[i].name)
    ensures Requirement(schema, data, i) == !AllSpace(Field(data, schema.rules[i].name))
  {
  }

  /** The e-mail field must be non-blank and a valid address. */
  lemma EmailRequirement(schema: Schema, data: Record, i: nat)
    requires i < |schema.rules| && schema.rules[i].required
    requires schema.emailField == Some(schema.rules[i].name)
    ensures Requirement(schema, data, i) ==
      (!AllSpace(Field(data, schema.rules[i].name)) && IsValidEmail(Field(data, schema.rules[i].name)))
  {
  }

  /** The qualified form is valid iff its five required fields are non-blank; there is no
      format check. */
  lemma QualifiedValidity(data: Record)
    ensures IsFormValid(Qualified, data) <==>
      && !AllSpace(Field(data, "name")) && !AllSpace(Field(data, "phoneNumber"))
      && !AllSpace(Field(data, "role")) && !AllSpace(Field(data, "brandIGUsername"))
      && !AllSpace(Field(data, "businessGoals"))
  {
    ValidIffSix(Qualified, data);
    PlainRequirement(Qualified, data, 0);
    PlainRequirement(Qualified, data, 1);
    PlainRequirement(Qualified, data, 2);
    PlainRequirement(Qualified, data, 3);
    PlainRequirement(Qualified, data, 4);
  }

  /** `every` over a table of six rules, spelt out. */
  lemma ValidIffSix(schema: Schema, data: Record)
    requires |schema.rules| == 6
    ensures IsFormValid(schema, data) <==>
      && Requirement(schema, data, 0) && Requirement(schema, data, 1)
      && Requirement(schema, data, 2) && Requirement(schema, data, 3)
      && Requirement(schema, data, 4) && Requirement(schema, data, 5)
  {
    FormValidIff(schema, data);
    if && Requirement(schema, data, 0) && Requirement(schema, data, 1)
       && Requirement(schema, data, 2) && Requirement(schema, data, 3)
       && Requirement(schema, data, 4) && Requirement(schema, data, 5)
    {
      forall i | 0 <= i < 6 ensures Requirement(schema, data, i) {
        assert i == 0 || i == 1 || i == 2 || i == 3 || i == 4 || i == 5;
      }
    }
  }

  /** An address with white space around it keeps the disqualified form invalid even though
      the blank check trims it. */
  lemma PaddedEmailKeepsFormInvalid(data: Record)
    requires var e := Field(data, "email"); |e| > 0 && (IsSpace(e[0]) || IsSpace(e[|e| - 1]))
    ensures !IsFormValid(Disqualified, data)
  {
    DisqualifiedValidity(data);
    PaddedEmailRejected(Field(data, "email"));
  }

  /** "not-an-email" keeps the disqualified form invalid whatever the other fields hold. */
  lemma MalformedEmailKeepsFormInvalid(data: Record)
    requires Field(data, "email") == "not-an-email"
    ensures !IsFormValid(Disqualified, data)
  {
    DisqualifiedValidity(data);
    NotAnEmail();
  }

  /** A freshly mounted (or just reset) form is invalid, so its submit button starts disabled. */
  lemma BlankFormInvalid(schema: Schema, i: nat)
    requires DistinctNames(schema.rules) && i < |schema.rules| && schema.rules[i].required
    ensures !IsFormValid(schema, Blank(schema))
  {
    FormValidIff(schema, Blank(schema));
    assert !Requirement(schema, Blank(schema), i);
  }

  // ---------------------------------------------------------------------------
  // The payload: FormData appended in order
  // ---------------------------------------------------------------------------

  /** A `File` chosen in the upload input. */
  datatype Upload = Upload(fileName: string)

  datatype Part = TextPart(name: string, value: string) | FilePart(name: string, file: Upload)

  /** `access_key`, then `subject`, then every entry of `formData` in order, then the file
      when one is selected. */
  function Payload(schema: Schema, data: Record, attachment: Option<Upload>): seq<Part>
  {
    [TextPart("access_key", schema.accessKey), TextPart("subject", schema.subject)]
    + seq(|data|, i requires 0 <= i < |data| => TextPart(data[i].key, data[i].value))
    + (if attachment.Some? then [FilePart(schema.attachmentKey, attachment.value)] else [])
  }

  /** Builds the payload as the handler does: two fixed appends, one append per entry, then
      the file if there is one. */
  method BuildPayload(schema: Schema, data: Record, attachment: Option<Upload>)
    returns (parts: seq<Part>)
    ensures parts == Payload(schema, data, attachment)
  {
    parts := [TextPart("access_key", schema.accessKey), TextPart("subject", schema.subject)];
    var i := 0;
    while i < |data|
      invariant 0 <= i <= |data|
      invariant |parts| == 2 + i
      invariant parts[..2] == [TextPart("access_key", schema.accessKey), TextPart("subject", schema.subject)]
      invariant forall m | 0 <= m < i :: parts[2 + m] == TextPart(data[m].key, data[m].value)
    {
      parts := parts + [TextPart(data[i].key, data[i].value)];
      i := i + 1;
    }
    if attachment.Some? {
      parts := parts + [FilePart(schema.attachmentKey, attachment.value)];
    }
  }

  /** The payload opens with the access key and the subject, carries every schema field with
      its current value, and holds a file part exactly when a file is selected. */
  lemma PayloadContents(schema: Schema, data: Record, attachment: Option<Upload>)
    requires Conforms(schema, data)
    ensures var p := Payload(schema, data, attachment);
      && p[..2] == [TextPart("access_key", schema.accessKey), TextPart("subject", schema.subject)]
      && (forall i | 0 <= i < |schema.rules| ::
            TextPart(schema.rules[i].name, Field(data, schema.rules[i].name)) in p)
      && ((exists m | 0 <= m < |p| :: p[m].FilePart?) <==> attachment.Some?)
  {
    var p := Payload(schema, data, attachment);
    forall i | 0 <= i < |schema.rules|
      ensures TextPart(schema.rules[i].name, Field(data, schema.rules[i].name)) in p
    {
      var k := KeyIndex(data, schema.rules[i].name);
      assert p[2 + k] == TextPart(data[k].key, data[k].value);
    }
    if attachment.Some? {
      assert p[|p| - 1].FilePart?;
    } else {
      forall m | 0 <= m < |p| ensures !p[m].FilePart? {
        if m >= 2 {
          assert p[m] == TextPart(data[m - 2].key, data[m - 2].value);
        }
      }
    }
  }

  /** The form data holds exactly the schema's fields, in declaration order, as the initial
      state does and every change of a field keeps. */
  predicate InDeclarationOrder(schema: Schema, data: Record)
  {
    |data| == |schema.rules| && forall i | 0 <= i < |data| :: data[i].key == schema.rules[i].name
  }

  lemma BlankInDeclarationOrder(schema: Schema)
    requires DistinctNames(schema.rules)
    ensures InDeclarationOrder(schema, Blank(schema))
  {
  }

  /** Changing a field of the schema keeps the declaration order. */
  lemma PutKeepsOrder(schema: Schema, data: Record, i: nat, value: string)
    requires InDeclarationOrder(schema, data) && i < |schema.rules|
    ensures InDeclarationOrder(schema, Put(data, schema.rules[i].name, value))
  {
    assert HasKey(data, schema.rules[i].name) by {
      assert data[i].key == schema.rules[i].name;
    }
  }

  /** With the form data in declaration order, the payload is the access key, the subject,
      every field in declaration order with its value, then the file if one is selected. */
  lemma PayloadInDeclarationOrder(schema: Schema, data: Record, attachment: Option<Upload>)
    requires DistinctNames(schema.rules) && InDeclarationOrder(schema, data)
    ensures var p := Payload(schema, data, attachment);
      && |p| == 2 + |schema.rules| + (if attachment.Some? then 1 else 0)
      && p[0] == TextPart("access_key", schema.accessKey)
      && p[1] == TextPart("subject", schema.subject)
      && (forall i | 0 <= i < |schema.rules| ::
            p[2 + i] == TextPart(schema.rules[i].name, Field(data, schema.rules[i].name)))
      && (attachment.Some? ==> p[|p| - 1] == FilePart(schema.attachmentKey, attachment.value))
  {
    var p := Payload(schema, data, attachment);
    assert DistinctKeys(data);
    forall i | 0 <= i < |schema.rules|
      ensures p[2 + i] == TextPart(schema.rules[i].name, Field(data, schema.rules[i].name))
    {
      LookupAt(data, i);
    }
  }

  // ---------------------------------------------------------------------------
  // The relay's answer and the status string
  // ---------------------------------------------------------------------------

  /** What the awaited calls produced. `Rejected` is an exception escaping `fetch` or
      `response.text()` (an `Error` with its message, or some other thrown value);
      `Answered` is a response whose body did or did not parse as JSON. Absent or empty
      `message` / `error` properties are `""`; `success` is the truthiness of `result.success`. */
  datatype Reply =
    | Rejected(isErrorObject: bool, thrownMessage: string)
    | Answered(parsed: bool, httpOk: bool, status: nat, success: bool, message: string, error: string)

  datatype Outcome = Succeeded | Failed(message: string)

  const FallbackMessage := "Form submission failed. Please check your access key and try again."
  const UnknownError := "Unknown error occurred"

  /** The `try`/`catch` of the submit handler: which branch runs and with which message. */
  function Evaluate(reply: Reply): (o: Outcome)
    ensures o.Succeeded? <==> reply.Answered? && reply.parsed && reply.httpOk && reply.success
    ensures o.Failed? && o.message == [] ==>
      reply.Rejected? && reply.isErrorObject && reply.thrownMessage == []
  {
    match reply
    case Rejected(isErrorObject, thrown) =>
      Failed(if isErrorObject then thrown else UnknownError)
    case Answered(parsed, httpOk, status, success, message, error) =>
      if !parsed then Failed("Invalid response from server: " + Decimal(status))
      else if !httpOk then Failed(if message != [] then message else "HTTP error! status: " + Decimal(status))
      else if success then Succeeded
      else Failed(if message != [] then message else if error != [] then error else FallbackMessage)
  }

  /** The message of every other failure path: a thrown `Error` keeps its own message and
      any other thrown value becomes "Unknown error occurred"; an unparsable body names the
      HTTP status; a non-OK response shows the relay's `message`, or the status when it
      sent none. */
  lemma FailureMessages(reply: Reply)
    ensures reply.Rejected? ==>
      Evaluate(reply) == Failed(if reply.isErrorObject then reply.thrownMessage else UnknownError)
    ensures reply.Answered? && !reply.parsed ==>
      Evaluate(reply) == Failed("Invalid response from server: " + Decimal(reply.status))
    ensures reply.Answered? && reply.parsed && !reply.httpOk ==>
      Evaluate(reply) == Failed(if reply.message != [] then reply.message
                                else "HTTP error! status: " + Decimal(reply.status))
  {
  }

  /** On a logical failure the relay's `message` wins over its `error`, and both over the
      fixed fallback. */
  lemma FailurePrecedence(status: nat, message: string, error: string)
    ensures var o := Evaluate(Answered(true, true, status, false, message, error));
      && (message != [] ==> o == Failed(message))
      && (message == [] && error != [] ==> o == Failed(error))
      && (message == [] && error == [] ==> o == Failed(FallbackMessage))
  {
  }

  const Idle := "idle"

  /** The value `submitStatus` is set to. */
  function StatusText(o: Outcome): string
  {
    match o
    case Succeeded => "success"
    case Failed(m) => "error: " + m
  }

  /** Reads a status string back. */
  function ParseStatus(s: string): Option<Outcome>
  {
    if s == "success" then Some(Succeeded)
    else if StartsWith(s, "error: ") then Some(Failed(s[7..]))
    else None
  }

  /** The status string loses nothing: the outcome can be read back from it, and it is never
      the idle status. */
  lemma StatusRoundTrip(o: Outcome)
    ensures ParseStatus(StatusText(o)) == Some(o)
    ensures StatusText(o) != Idle
  {
    if o.Failed? {
      var s := StatusText(o);
      assert s[..7] == "error: ";
      assert s[7..] == o.message;
      assert s != "success" by { assert s[0] != "success"[0]; }
    }
  }

  lemma IdleIsNoOutcome()
    ensures ParseStatus(Idle) == None
  {
    assert !StartsWith(Idle, "error: ");
  }

  // ---------------------------------------------------------------------------
  // Banners
  // ---------------------------------------------------------------------------

  const GenericErrorText := "Something went wrong. Please try again later."

  /** The success banner: status exactly `success`. */
  predicate SuccessBannerShown(status: string)
  {
    status == "success"
  }

  /** The error banner's text as written: for a status starting with `error`, the part
      between the first and second `:`, trimmed (`split(':')[1].trim()`). */
  function ErrorBanner(status: string): (b: Option<string>)
    ensures b.Some? <==> StartsWith(status, "error")
    ensures b.Some? && ':' !in status ==> b.value == GenericErrorText
    ensures b.Some? && ':' in status ==>
      b.value == [] || (!IsSpace(b.value[0]) && !IsSpace(b.value[|b.value| - 1]))
  {
    if !StartsWith(status, "error") then None
    else if ':' in status then Some(Trim(TakeUntil(DropThrough(status, ':'), ':')))
    else Some(GenericErrorText)
  }

  /** The error banner for a failure shows the message up to its first `:`, trimmed. */
  lemma ErrorBannerOfFailure(m: string)
    ensures ErrorBanner(StatusText(Failed(m))) == Some(Trim(TakeUntil(m, ':')))
  {
    var s := StatusText(Failed(m));
    var e := "error";
    assert s == e + [':'] + (" " + m);
    assert s[..5] == e;
    forall k | 0 <= k < |e| ensures e[k] != ':' {
    }
    DropThroughFirst(e, " " + m, ':');
    assert " " + m == [' '] + m;
    TakeUntilAfter([' '], m, ':');
    TrimAfterSpace([' '], TakeUntil(m, ':'));
  }

  /** Exactly one banner shows after a submission, and the right one; the idle status shows
      neither. */
  lemma BannersExclusive(o: Outcome)
    ensures SuccessBannerShown(StatusText(o)) <==> o.Succeeded?
    ensures ErrorBanner(StatusText(o)).Some? <==> o.Failed?
    ensures IntendedErrorBanner(StatusText(o)).Some? <==> o.Failed?
    ensures !SuccessBannerShown(Idle) && ErrorBanner(Idle).None? && IntendedErrorBanner(Idle).None?
  {
    StatusRoundTrip(o);
    if o.Failed? {
      ErrorBannerOfFailure(o.message);
      IntendedBannerShowsMessage(o.message);
    } else {
      assert "success"[0] != "error"[0];
    }
    assert !StartsWith(Idle, "error");
  }

  /** The banner for a message shows its text before the first `:`, when that text has no
      white space at its ends. */
  lemma BannerCutsAtColon(head: string, tail: string)
    requires ':' !in head && (head == [] || (!IsSpace(head[0]) && !IsSpace(head[|head| - 1])))
    ensures ErrorBanner(StatusText(Failed(head + [':'] + tail))) == Some(head)
  {
    ErrorBannerOfFailure(head + [':'] + tail);
    TakeUntilFirst(head, tail, ':');
    TrimOfTrimmed(head);
  }

  /** An unparsable body shows "Invalid response from server", whatever the status code:
      the code is cut off at the colon. */
  lemma InvalidResponseBanner(httpOk: bool, status: nat, success: bool, message: string, error: string)
    ensures ErrorBanner(StatusText(Evaluate(Answered(false, httpOk, status, success, message, error))))
         == Some("Invalid response from server")
  {
    var head := "Invalid response from server";
    var tail := " " + Decimal(status);
    assert "Invalid response from server: " + Decimal(status) == head + [':'] + tail;
    forall k | 0 <= k < |head| ensures head[k] != ':' {
    }
    BannerCutsAtColon(head, tail);
  }

  /** An HTTP error without a message from the relay shows "HTTP error! status", without the
      status code the message carries. */
  lemma HttpErrorBanner(status: nat, success: bool, error: string)
    ensures ErrorBanner(StatusText(Evaluate(Answered(true, false, status, success, "", error))))
         == Some("HTTP error! status")
  {
    var head := "HTTP error! status";
    var tail := " " + Decimal(status);
    assert "HTTP error! status: " + Decimal(status) == head + [':'] + tail;
    forall k | 0 <= k < |head| ensures head[k] != ':' {
    }
    BannerCutsAtColon(head, tail);
  }

  /** The banner the markup evidently intends: everything after the `error:` prefix, trimmed. */
  function IntendedErrorBanner(status: string): Option<string>
  {
    if !StartsWith(status, "error") then None
    else if ':' in status then Some(Trim(DropThrough(status, ':')))
    else Some(GenericErrorText)
  }

  /** The intended banner shows the whole failure message, trimmed, colons included. */
  lemma IntendedBannerShowsMessage(m: string)
    ensures IntendedErrorBanner(StatusText(Failed(m))) == Some(Trim(m))
  {
    var s := StatusText(Failed(m));
    var e := "error";
    assert s == e + [':'] + (" " + m);
    assert s[..5] == e;
    forall k | 0 <= k < |e| ensures e[k] != ':' {
    }
    DropThroughFirst(e, " " + m, ':');
    assert " " + m == [' '] + m;
    TrimAfterSpace([' '], m);
  }

  /** The two banners agree exactly on messages without a colon. */
  lemma BannersAgreeWithoutColon(m: string)
    requires ':' !in m
    ensures ErrorBanner(StatusText(Failed(m))) == IntendedErrorBanner(StatusText(Failed(m)))
  {
    ErrorBannerOfFailure(m);
    IntendedBannerShowsMessage(m);
  }

  // ---------------------------------------------------------------------------
  // The form component
  // ---------------------------------------------------------------------------

  /** One mounted form: the React state of `QualifiedForm` or `DisqualifiedForm`. */
  class Form {
    const schema: Schema
    var formData: Record
    var screenshot: Option<Upload>
    var isSubmitting: bool
    var submitStatus: string

    ghost predicate Valid()
      reads this
    {
      DistinctNames(schema.rules) && Conforms(schema, formData) && DistinctKeys(formData)
    }

    constructor (s: Schema)
      requires DistinctNames(s.rules)
      ensures Valid() && schema == s
      ensures formData == Blank(s) && screenshot == None
      ensures !isSubmitting && submitStatus == Idle
    {
      schema := s;
      formData := Blank(s);
      screenshot := None;
      isSubmitting := false;
      submitStatus := Idle;
    }

    /** `disabled={isSubmitting || !isFormValid}` on the submit button. */
    predicate SubmitDisabled()
      reads this
      requires Valid()
    {
      isSubmitting || !IsFormValid(schema, formData)
    }

    /** `handleChange`: the named input's value replaces that key's value. */
    method HandleChange(name: string, value: string)
      requires Valid()
      modifies this`formData
      ensures Valid()
      ensures formData == Put(old(formData), name, value)
      ensures Lookup(formData, name) == Some(value)
      ensures forall k | k != name :: Lookup(formData, k) == Lookup(old(formData), k)
    {
      formData := Put(formData, name, value);
      forall i | 0 <= i < |schema.rules| ensures HasKey(formData, schema.rules[i].name) {
        assert Lookup(formData, schema.rules[i].name).Some?;
      }
    }

    /** The synchronous start of `handleSubmit`, up to the `fetch`: the button locks, the
        status resets, and the payload is assembled from the current state. */
    method BeginSubmit() returns (payload: seq<Part>)
      requires Valid()
      modifies this`isSubmitting, this`submitStatus
      ensures Valid()
      ensures isSubmitting && submitStatus == Idle
      ensures payload == Payload(schema, formData, screenshot)
    {
      isSubmitting := true;
      submitStatus := Idle;
      payload := BuildPayload(schema, formData, screenshot);
    }

    /** The rest of `handleSubmit`, once the relay has answered (or the request has thrown):
        success clears every field and the file, a failure keeps them, and `finally`
        releases the button on every path. */
    method FinishSubmit(reply: Reply)
      requires Valid()
      modifies this`formData, this`screenshot, this`isSubmitting, this`submitStatus
      ensures Valid() && !isSubmitting
      ensures submitStatus == StatusText(Evaluate(reply))
      ensures Evaluate(reply).Succeeded? ==> formData == Blank(schema) && screenshot == None
      ensures Evaluate(reply).Failed? ==>
        formData == old(formData) && screenshot == old(screenshot)
    {
      var outcome := Evaluate(reply);
      match outcome {
        case Succeeded =>
          submitStatus := StatusText(Succeeded);
          formData := Blank(schema);
          screenshot := None;
        case Failed(message) =>
          submitStatus := StatusText(Failed(message));
      }
      isSubmitting := false;
    }
  }
}
