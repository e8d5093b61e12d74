/** The contact form (src/components/shared/ContactForm.tsx): the validation rules, the
    rules made for custom fields, the mailto message, the placeholder text and the
    submission state. */
module ContactForm {
  import opened Wrappers
  import opened JsStrings
  import opened ConfigTypes
  import Seqs
  import PhoneNumber

  // ---------------------------------------------------------------- baseSchema

  const NameMessage := "Le nom doit contenir au moins 2 caractères"
  const EmailMessage := "Email invalide"
  const PhoneMessage := "Numéro de téléphone invalide"
  const MessageMessage := "Le message doit contenir au moins 10 caractères"

  predicate ValidName(name: string) {
    |name| >= 2
  }

  predicate ValidMessage(message: string) {
    |message| >= 10
  }

  /** The four fields every submission carries, and the custom fields' values by name
      (a name without a value is `undefined`). */
  datatype FormData = FormData(name: string, email: string, phone: string, message: string, custom: map<string, string>)

  datatype FieldError = FieldError(field: string, message: string)

  /** The fields of the base schema, in order. */
  const BaseFields := ["name", "email", "phone", "message"]

  /** The error a rule reports, if it fails. */
  function Complaint(ok: bool, field: string, message: string): (r: seq<FieldError>)
    ensures |r| <= 1
    ensures forall e :: e in r <==> !ok && e == FieldError(field, message)
  {
    if ok then [] else [FieldError(field, message)]
  }

  /** The four messages the base rules can report. */
  function BaseComplaints(): seq<FieldError> {
    [FieldError("name", NameMessage), FieldError("email", EmailMessage),
     FieldError("phone", PhoneMessage), FieldError("message", MessageMessage)]
  }

  /** Four rules over distinct fields report exactly the messages of those that fail. */
  lemma ComplaintsOfFour(ok0: bool, e0: FieldError, ok1: bool, e1: FieldError,
                         ok2: bool, e2: FieldError, ok3: bool, e3: FieldError)
    requires e0.field != e1.field && e0.field != e2.field && e0.field != e3.field
    requires e1.field != e2.field && e1.field != e3.field && e2.field != e3.field
    ensures var r := Complaint(ok0, e0.field, e0.message) + Complaint(ok1, e1.field, e1.message)
      + Complaint(ok2, e2.field, e2.message) + Complaint(ok3, e3.field, e3.message);
      && (e0 in r <==> !ok0) && (e1 in r <==> !ok1) && (e2 in r <==> !ok2) && (e3 in r <==> !ok3)
      && (forall e :: e in r ==> e in [e0, e1, e2, e3])
      && (r == [] <==> ok0 && ok1 && ok2 && ok3)
  {
  }

  /** The errors of the base rules, in field order. Zod's e-mail check is the parameter
      `isEmail`. */
  function BaseErrors(form: FormData, isEmail: string -> bool): (r: seq<FieldError>)
    ensures FieldError("name", NameMessage) in r <==> !ValidName(form.name)
    ensures FieldError("email", EmailMessage) in r <==> !isEmail(form.email)
    ensures FieldError("phone", PhoneMessage) in r <==> !PhoneNumber.IsValidPhone(form.phone)
    ensures FieldError("message", MessageMessage) in r <==> !ValidMessage(form.message)
    ensures |r| <= 4
    ensures forall k :: 0 <= k < |r| ==> r[k].field in BaseFields
  {
    var phoneOk := PhoneNumber.IsValidPhone(form.phone);
    Complaint(ValidName(form.name), "name", NameMessage)
    + Complaint(isEmail(form.email), "email", EmailMessage)
    + Complaint(phoneOk, "phone", PhoneMessage)
    + Complaint(ValidMessage(form.message), "message", MessageMessage)
  }

  /** The base rules report nothing but their own four messages, and a form that passes
      all four gets no error at all. */
  lemma BaseErrorsExact(form: FormData, isEmail: string -> bool)
    ensures forall e :: e in BaseErrors(form, isEmail) ==> e in BaseComplaints()
    ensures BaseErrors(form, isEmail) == [] <==>
      ValidName(form.name) && isEmail(form.email) && PhoneNumber.IsValidPhone(form.phone)
      && ValidMessage(form.message)
  {
    assert "email"[0] != "phone"[0];
    ComplaintsOfFour(ValidName(form.name), FieldError("name", NameMessage),
                     isEmail(form.email), FieldError("email", EmailMessage),
                     PhoneNumber.IsValidPhone(form.phone), FieldError("phone", PhoneMessage),
                     ValidMessage(form.message), FieldError("message", MessageMessage));
  }

  // ---------------------------------------------------------------- dynamicSchema

  datatype FieldKind = Text | Select | Date | Time

  /** A configured extra field; an absent `required` is `false`. */
  datatype CustomField = CustomField(name: string, labelText: string, kind: FieldKind, required: bool)

  /** `z.string().min(1, message)` or `z.string().optional()`. */
  datatype Rule = Required(message: string) | Optional

  function RuleFor(field: CustomField): (r: Rule)
    ensures r.Required? <==> field.required
    ensures r.Required? ==> r.message == field.labelText + " est requis"
  {
    if field.required then Required(field.labelText + " est requis") else Optional
  }

  /** Whether a rule accepts a value (`None` is `undefined`). */
  predicate Accepts(rule: Rule, value: Option<string>) {
    match rule
    case Required(_) => value.Some? && |value.value| >= 1
    case Optional => true
  }

  /** A required field accepts exactly the non-empty strings; an optional one anything. */
  lemma RuleAcceptance(field: CustomField, value: Option<string>)
    ensures Accepts(RuleFor(field), value) <==> !field.required || Truthy(value)
  {
  }

  /** The rule object the reduce builds: each field's assignment overwrites the earlier ones. */
  function SchemaOf(fields: seq<CustomField>): map<string, Rule>
    decreases |fields|
  {
    if fields == [] then map[]
    else
      var last := fields[|fields| - 1];
      SchemaOf(fields[..|fields| - 1])[last.name := RuleFor(last)]
  }

  /** `customFields.reduce(...)`, filling the accumulator field by field. */
  method DynamicSchema(fields: seq<CustomField>) returns (schema: map<string, Rule>)
    ensures schema == SchemaOf(fields)
  {
    schema := map[];
    for i := 0 to |fields|
      invariant schema == SchemaOf(fields[..i])
    {
      assert fields[..i + 1][..i] == fields[..i];
      if fields[i].required {
        schema := schema[fields[i].name := Required(fields[i].labelText + " est requis")];
      } else {
        schema := schema[fields[i].name := Optional];
      }
    }
    assert fields[..|fields|] == fields;
  }

  /** Every custom field name gets exactly one rule, and no other name gets one. */
  lemma {:induction false} SchemaKeys(fields: seq<CustomField>)
    ensures SchemaOf(fields).Keys == set i | 0 <= i < |fields| :: fields[i].name
    decreases |fields|
  {
    if fields != [] {
      var init := fields[..|fields| - 1];
      SchemaKeys(init);
      assert forall i :: 0 <= i < |init| ==> init[i] == fields[i];
    }
  }

  /** A name's rule is that of the last field carrying the name. */
  lemma {:induction false} SchemaLastWins(fields: seq<CustomField>, i: int)
    requires 0 <= i < |fields|
    requires forall j :: i < j < |fields| ==> fields[j].name != fields[i].name
    ensures fields[i].name in SchemaOf(fields)
    ensures SchemaOf(fields)[fields[i].name] == RuleFor(fields[i])
    decreases |fields|
  {
    if i < |fields| - 1 {
      var init := fields[..|fields| - 1];
      assert init[i] == fields[i];
      assert forall j :: i < j < |init| ==> init[j] == fields[j];
      SchemaLastWins(init, i);
    }
  }

  // ---------------------------------------------------------------- the mailto message

  const SubjectPrefix := "Nouveau message de "

  function MailtoSubject(name: string): (r: string)
    ensures |r| == |SubjectPrefix| + |name|
    ensures r[..|SubjectPrefix|] == SubjectPrefix && r[|SubjectPrefix|..] == name
  {
    SubjectPrefix + name
  }

  /** The line a custom field contributes: only a field with a truthy value gives one. */
  function CustomLine(custom: map<string, string>, field: CustomField): Option<string> {
    if field.name in custom && custom[field.name] != "" then Some(field.labelText + ": " + custom[field.name])
    else None
  }

  /** `customFields.map(...).filter(Boolean)`: the mapping yields `''` for a field without
      a value, and `filter(Boolean)` drops exactly those, since a `label: value` line is
      never empty. */
  function CustomLines(custom: map<string, string>, fields: seq<CustomField>): seq<string> {
    Seqs.FilterMap(fields, (field: CustomField) => CustomLine(custom, field))
  }

  /** The lines are exactly those of the fields with a value ... */
  lemma CustomLinesMember(custom: map<string, string>, fields: seq<CustomField>, line: string)
    ensures line in CustomLines(custom, fields) <==>
      exists i :: 0 <= i < |fields| && fields[i].name in custom && custom[fields[i].name] != ""
                  && line == fields[i].labelText + ": " + custom[fields[i].name]
  {
    Seqs.FilterMapMember(fields, (field: CustomField) => CustomLine(custom, field), line);
  }

  /** ... in the order of the configured fields. */
  lemma CustomLinesOrder(custom: map<string, string>, a: seq<CustomField>, b: seq<CustomField>)
    ensures CustomLines(custom, a + b) == CustomLines(custom, a) + CustomLines(custom, b)
  {
    Seqs.FilterMapAppend(a, b, (field: CustomField) => CustomLine(custom, field));
  }

  /** The custom-field block of the body. */
  function CustomBlock(form: FormData, fields: seq<CustomField>): string {
    Join(CustomLines(form.custom, fields), "\n")
  }

  /** The body's first lines, up to "Message:". */
  function BodyHead(form: FormData): string {
    "Nom: " + form.name + "\nEmail: " + form.email + "\nTéléphone: " + form.phone + "\n\nMessage:"
  }

  /** The message and the custom-field block. */
  function BodyTail(form: FormData, fields: seq<CustomField>): string {
    "\n" + form.message + "\n\n" + CustomBlock(form, fields)
  }

  /** The template ends with a newline and the eight spaces that indent its closing backquote. */
  const ClosingIndent := "\n        "

  /** The text between the backquotes, before `.trim()`. */
  function BodyTemplate(form: FormData, fields: seq<CustomField>): string {
    "\n" + ((BodyHead(form) + BodyTail(form, fields)) + ClosingIndent)
  }

  function MailtoBody(form: FormData, fields: seq<CustomField>): string {
    Trim(BodyTemplate(form, fields))
  }

  lemma TrimStartNewline(t: string)
    requires t != [] && !IsWhitespace(t[0])
    ensures TrimStart("\n" + t) == t
  {
    assert ("\n" + t)[1..] == t;
  }

  lemma {:induction false} TrimEndWhitespace(s: string, w: string)
    requires AllWhitespace(w)
    ensures TrimEnd(s + w) == TrimEnd(s)
    decreases |w|
  {
    if w != [] {
      var v := w[..|w| - 1];
      assert (s + w)[..|s + w| - 1] == s + v;
      assert forall i :: 0 <= i < |v| ==> v[i] == w[i];
      TrimEndWhitespace(s, v);
    } else {
      assert s + w == s;
    }
  }

  lemma TrimEndKeepsPrefix(s: string, k: nat)
    requires 0 < k <= |s| && !IsWhitespace(s[k - 1])
    ensures |TrimEnd(s)| >= k && TrimEnd(s)[..k] == s[..k]
  {
  }

  lemma HeadEnds(form: FormData)
    ensures |BodyHead(form)| > 0
    ensures BodyHead(form)[0] == 'N' && BodyHead(form)[|BodyHead(form)| - 1] == ':'
  {
  }

  /** Trimming drops the template's first newline and final indentation, and nothing of
      the text in between except trailing whitespace of the user's input. */
  lemma BodyIsTrimmedText(form: FormData, fields: seq<CustomField>)
    ensures MailtoBody(form, fields) == TrimEnd(BodyHead(form) + BodyTail(form, fields))
  {
    var t := BodyHead(form) + BodyTail(form, fields);
    HeadEnds(form);
    assert t[0] == BodyHead(form)[0];
    TrimStartNewline(t + ClosingIndent);
    TrimEndWhitespace(t, ClosingIndent);
  }

  /** The body always begins with the name, e-mail, phone and "Message:" lines. */
  lemma BodyStartsWithHead(form: FormData, fields: seq<CustomField>)
    ensures |BodyHead(form)| <= |MailtoBody(form, fields)|
    ensures MailtoBody(form, fields)[..|BodyHead(form)|] == BodyHead(form)
  {
    var head := BodyHead(form);
    var t := head + BodyTail(form, fields);
    BodyIsTrimmedText(form, fields);
    HeadEnds(form);
    assert t[|head| - 1] == head[|head| - 1];
    TrimEndKeepsPrefix(t, |head|);
    assert t[..|head|] == head;
  }

  lemma LastOfAppend(a: string, b: string)
    requires b != []
    ensures (a + b)[|a + b| - 1] == b[|b| - 1]
  {
  }

  /** When the custom block does not end in whitespace, nothing but the template's own
      first newline and final indentation is trimmed. */
  lemma BodyWithCustomLines(form: FormData, fields: seq<CustomField>)
    requires CustomBlock(form, fields) != []
    requires !IsWhitespace(CustomBlock(form, fields)[|CustomBlock(form, fields)| - 1])
    ensures MailtoBody(form, fields) == BodyHead(form) + BodyTail(form, fields)
  {
    var block := CustomBlock(form, fields);
    var tail := BodyTail(form, fields);
    BodyIsTrimmedText(form, fields);
    LastOfAppend("\n" + form.message + "\n\n", block);
    LastOfAppend(BodyHead(form), tail);
  }

  /** The `href` the browser is sent to; `encodeURIComponent` is the parameter `encode`. */
  function MailtoHref(emailTo: string, form: FormData, fields: seq<CustomField>, encode: string -> string): (r: string)
    ensures |r| >= 7 + |emailTo| + 9 && r[..7 + |emailTo| + 9] == "mailto:" + emailTo + "?subject="
  {
    var r := "mailto:" + emailTo + "?subject=" + encode(MailtoSubject(form.name)) + "&body=" + encode(MailtoBody(form, fields));
    assert r[..7 + |emailTo| + 9] == "mailto:" + emailTo + "?subject=";
    r
  }

  // ---------------------------------------------------------------- getPlaceholder

  /** The business types of the configuration (src/lib/configs/config.types.ts). */
  datatype BusinessType = Plumber | Restaurant | Medical | Legal | Retail | GeneralService

  const DefaultPlaceholder := "Comment pouvons-nous vous aider ?"

  function Placeholder(businessType: BusinessType, fieldName: string): (r: string)
    ensures fieldName != "message" ==> r == ""
    ensures fieldName == "message" ==> r != ""
    ensures fieldName == "message" && businessType in {Legal, Retail, GeneralService} ==> r == DefaultPlaceholder
  {
    match businessType
    case Plumber => if fieldName == "message" then "Décrivez votre problème de plomberie..." else ""
    case Restaurant => if fieldName == "message" then "Nombre de personnes, date souhaitée, occasion spéciale..." else ""
    case Medical => if fieldName == "message" then "Décrivez vos symptômes ou le motif de consultation..." else ""
    case _ => if fieldName == "message" then DefaultPlaceholder else ""
  }

  /** The three specific texts differ from each other and from the default. */
  lemma PlaceholdersDistinct()
    ensures Placeholder(Plumber, "message") != Placeholder(Restaurant, "message")
    ensures Placeholder(Plumber, "message") != Placeholder(Medical, "message")
    ensures Placeholder(Restaurant, "message") != Placeholder(Medical, "message")
    ensures forall t :: t in {Plumber, Restaurant, Medical} ==> Placeholder(t, "message") != DefaultPlaceholder
  {
  }

  // ---------------------------------------------------------------- onSubmit

  /** What one submission did. */
  datatype Outcome = Posted | Redirected(href: string) | Failed

  /** The form's `isSubmitting` / `isSuccess` state. */
  class Submission {
    var isSubmitting: bool
    var isSuccess: bool

    constructor ()
      ensures !isSubmitting && !isSuccess
    {
      isSubmitting := false;
      isSuccess := false;
    }

    /** The start of `onSubmit`: the button is disabled. */
    method Begin()
      modifies this
      ensures isSubmitting && isSuccess == old(isSuccess)
    {
      isSubmitting := true;
    }

    /** The rest of `onSubmit`, once the request (if any) has answered: `webhookUrl` and
        whether the response was ok are parameters, and so is `encodeURIComponent`. A
        posted or redirected submission succeeds; a failed one leaves `isSuccess` as it
        was. Either way the button is enabled again. */
    method Finish(webhookUrl: Option<string>, responseOk: bool, emailTo: string, form: FormData,
                  fields: seq<CustomField>, encode: string -> string) returns (outcome: Outcome)
      modifies this
      ensures !isSubmitting
      ensures Truthy(webhookUrl) ==> outcome == (if responseOk then Posted else Failed)
      ensures !Truthy(webhookUrl) ==> outcome == Redirected(MailtoHref(emailTo, form, fields, encode))
      ensures isSuccess == (if outcome.Failed? then old(isSuccess) else true)
    {
      if Truthy(webhookUrl) {
        if !responseOk {
          outcome := Failed;
          isSubmitting := false;
          return;
        }
        outcome := Posted;
      } else {
        outcome := Redirected(MailtoHref(emailTo, form, fields, encode));
      }
      isSuccess := true;
      isSubmitting := false;
    }

    /** The timer five seconds after a success. */
    method ClearSuccess()
      modifies this
      ensures !isSuccess && isSubmitting == old(isSubmitting)
    {
      isSuccess := false;
    }
  }
}
