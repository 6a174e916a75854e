// submit_contact_message (web/views.py): the four fields of the posted
// JSON are stripped; each one left empty gets its own message in the error
// map, and the message is stored only when there is no error.

module Contact {
  import opened Common
  import opened Records
  import opened Store

  /** The Bengali messages: "name is required", "phone number is required",
      "message title is required", "message body is required", and "your
      message was sent successfully!". */
  const NameRequired: string := "\U{9A8}\U{9BE}\U{9AE} \U{986}\U{9AC}\U{9B6}\U{9CD}\U{9AF}\U{995}\U{964}"
  const PhoneRequired: string := "\U{9AB}\U{9CB}\U{9A8} \U{9A8}\U{9AE}\U{9CD}\U{9AC}\U{9B0} \U{986}\U{9AC}\U{9B6}\U{9CD}\U{9AF}\U{995}\U{964}"
  const TitleRequired: string := "\U{9AC}\U{9BE}\U{9B0}\U{9CD}\U{9A4}\U{9BE}\U{9B0} \U{9B6}\U{9BF}\U{9B0}\U{9CB}\U{9A8}\U{9BE}\U{9AE} \U{986}\U{9AC}\U{9B6}\U{9CD}\U{9AF}\U{995}\U{964}"
  const MessageRequired: string := "\U{9AC}\U{9BE}\U{9B0}\U{9CD}\U{9A4}\U{9BE}\U{9B0} \U{9AC}\U{9BF}\U{9AC}\U{9B0}\U{9A3} \U{986}\U{9AC}\U{9B6}\U{9CD}\U{9AF}\U{995}\U{964}"
  const SentMessage: string := "\U{986}\U{9AA}\U{9A8}\U{9BE}\U{9B0} \U{9AC}\U{9BE}\U{9B0}\U{9CD}\U{9A4}\U{9BE} \U{9B8}\U{9AB}\U{9B2}\U{9AD}\U{9BE}\U{9AC}\U{9C7} \U{9AA}\U{9BE}\U{9A0}\U{9BE}\U{9A8}\U{9CB} \U{9B9}\U{9AF}\U{9BC}\U{9C7}\U{99B}\U{9C7}!"

  const FieldNames: set<string> := {"name", "phone", "title", "message"}

  /** `data.get(key, '')`. */
  function Raw(data: map<string, string>, key: string): string {
    if key in data then data[key] else ""
  }

  /** `data.get(key, '').strip()`. */
  function Field(data: map<string, string>, key: string): (v: string)
    ensures v == "" <==> key !in data || AllSpace(data[key])
  {
    Strip(Raw(data, key))
  }

  /** Some field is empty once stripped. */
  predicate AnyBlank(data: map<string, string>) {
    Field(data, "name") == "" || Field(data, "phone") == "" || Field(data, "title") == "" || Field(data, "message") == ""
  }

  /** The error map names exactly the fields that are empty once stripped. */
  predicate ReportsBlankFields(data: map<string, string>, errors: map<string, string>) {
    && errors.Keys <= FieldNames
    && ("name" in errors <==> Field(data, "name") == "")
    && ("phone" in errors <==> Field(data, "phone") == "")
    && ("title" in errors <==> Field(data, "title") == "")
    && ("message" in errors <==> Field(data, "message") == "")
  }

  /** The response body: the error map with status 400, or the success
      message with status 201. */
  datatype ContactResponse = Rejected(errors: map<string, string>) | Accepted(message: string)

  /** The `errors` dictionary, built one key at a time. */
  method ValidateContact(name: string, phone: string, title: string, message: string) returns (errors: map<string, string>)
    ensures "name" in errors <==> name == ""
    ensures "phone" in errors <==> phone == ""
    ensures "title" in errors <==> title == ""
    ensures "message" in errors <==> message == ""
    ensures errors.Keys <= FieldNames
    ensures errors == map[] <==> name != "" && phone != "" && title != "" && message != ""
    ensures "name" in errors ==> errors["name"] == NameRequired
    ensures "phone" in errors ==> errors["phone"] == PhoneRequired
    ensures "title" in errors ==> errors["title"] == TitleRequired
    ensures "message" in errors ==> errors["message"] == MessageRequired
  {
    errors := map[];
    if name == "" {
      errors := errors["name" := NameRequired];
    }
    if phone == "" {
      errors := errors["phone" := PhoneRequired];
    }
    if title == "" {
      errors := errors["title" := TitleRequired];
    }
    if message == "" {
      errors := errors["message" := MessageRequired];
    }
  }

  /** The error map of submit_contact_message for the posted `data`: the
      four fields are stripped and then validated. */
  method ContactErrors(data: map<string, string>) returns (errors: map<string, string>)
    ensures ReportsBlankFields(data, errors)
    ensures errors == map[] <==> !AnyBlank(data)
    ensures "name" in errors ==> errors["name"] == NameRequired
    ensures "phone" in errors ==> errors["phone"] == PhoneRequired
    ensures "title" in errors ==> errors["title"] == TitleRequired
    ensures "message" in errors ==> errors["message"] == MessageRequired
  {
    var name := Field(data, "name");
    var phone := Field(data, "phone");
    var title := Field(data, "title");
    var message := Field(data, "message");
    errors := ValidateContact(name, phone, title, message);
    ErrorsReportBlankFields(data, errors);
  }

  /** submit_contact_message: 400 with an error for each blank field and
      nothing stored, or 201 and exactly one unread message with the
      stripped values. */
  method SubmitContactMessage(db: Database, data: map<string, string>) returns (status: int, response: ContactResponse)
    modifies db`contactMessages
    ensures status == 400 || status == 201
    ensures status == 400 <==> AnyBlank(data)
    ensures status == 400 ==> response.Rejected? && ReportsBlankFields(data, response.errors)
                              && db.contactMessages == old(db.contactMessages)
    ensures status == 400 ==> ("name" in response.errors ==> response.errors["name"] == NameRequired)
                              && ("phone" in response.errors ==> response.errors["phone"] == PhoneRequired)
                              && ("title" in response.errors ==> response.errors["title"] == TitleRequired)
                              && ("message" in response.errors ==> response.errors["message"] == MessageRequired)
    ensures status == 201 ==> response == Accepted(SentMessage)
                              && db.contactMessages == old(db.contactMessages) + [StoredMessage(data)]
  {
    var errors := ContactErrors(data);
    if errors != map[] {
      status, response := 400, Rejected(errors);
    } else {
      db.contactMessages := db.contactMessages + [StoredMessage(data)];
      status, response := 201, Accepted(SentMessage);
    }
  }

  /** What ValidateContact promises about the stripped fields of `data`,
      restated over `data` itself. */
  lemma ErrorsReportBlankFields(data: map<string, string>, errors: map<string, string>)
    requires "name" in errors <==> Field(data, "name") == ""
    requires "phone" in errors <==> Field(data, "phone") == ""
    requires "title" in errors <==> Field(data, "title") == ""
    requires "message" in errors <==> Field(data, "message") == ""
    requires errors.Keys <= FieldNames
    requires errors == map[] <==> Field(data, "name") != "" && Field(data, "phone") != ""
                                  && Field(data, "title") != "" && Field(data, "message") != ""
    ensures ReportsBlankFields(data, errors)
    ensures errors != map[] <==> AnyBlank(data)
  {
  }

  /** The row `ContactMessage.objects.create` stores; `is_read` defaults to false. */
  function StoredMessage(data: map<string, string>): ContactMessageRec {
    ContactMessageRec(Field(data, "name"), Field(data, "phone"), Field(data, "title"), Field(data, "message"), false)
  }

  /** A field made only of whitespace is as blank as a missing one. */
  lemma WhitespaceIsBlank(data: map<string, string>, key: string)
    requires key in FieldNames && key in data && AllSpace(data[key])
    ensures AnyBlank(data)
  {
    assert Field(data, key) == "";
    assert key == "name" || key == "phone" || key == "title" || key == "message";
  }

  /** A stored message has four non-empty fields with no surrounding
      whitespace, and is unread. */
  lemma StoredMessageIsTrimmed(data: map<string, string>)
    requires !AnyBlank(data)
    ensures var m := StoredMessage(data);
      && m.name != "" && m.phone != "" && m.title != "" && m.message != ""
      && Strip(m.name) == m.name && Strip(m.phone) == m.phone
      && Strip(m.title) == m.title && Strip(m.message) == m.message
      && !m.isRead
  {
    StripIdempotent(Raw(data, "name"));
    StripIdempotent(Raw(data, "phone"));
    StripIdempotent(Raw(data, "title"));
    StripIdempotent(Raw(data, "message"));
  }
}
