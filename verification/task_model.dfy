/**
  The Mongoose `Task` schema: an owner reference, a required trimmed `text`, an
  optional trimmed `details`, a `priority` restricted to an enum with a default,
  and a `createdAt` stamp defaulting to the clock at construction.
 */
module TaskModel {
  import opened Base
  import opened JsText

  /** The values the `priority` enum admits. */
  datatype Priority = Low | Medium | High

  /** The schema default for an omitted `priority`. */
  const DefaultPriority: Priority := Medium

  function PriorityName(p: Priority): string {
    match p
    case Low => "Low"
    case Medium => "Medium"
    case High => "High"
  }

  /** Reads a stored priority string back into the enum, failing off the enum. */
  function ParsePriority(s: string): (r: Option<Priority>)
    ensures r.Some? ==> PriorityName(r.value) == s
    ensures r.None? ==> forall p :: PriorityName(p) != s
  {
    if s == "Low" then Some(Low)
    else if s == "Medium" then Some(Medium)
    else if s == "High" then Some(High)
    else None
  }

  /** Every enum value survives being written out and read back. */
  lemma ParsePriorityName(p: Priority)
    ensures ParsePriority(PriorityName(p)) == Some(p)
  {
  }

  predicate InEnum(s: string) {
    ParsePriority(s).Some?
  }

  /**
    A stored task document. The owner `user` is an `Id`, never absent. `priority`
    is kept as the stored string because updates write it without validation.
   */
  datatype Task = Task(id: Id, user: Id, text: string, details: Option<string>,
                       priority: string, createdAt: int)

  /** The constraints the schema's validators and setters establish on a saved document. */
  predicate Valid(t: Task) {
    && t.text != "" && Trim(t.text) == t.text
    && (t.details.Some? ==> Trim(t.details.value) == t.details.value)
    && InEnum(t.priority)
  }

  /** The `trim` setter on an optional path: absent stays absent. */
  function TrimField(f: Option<string>): (r: Option<string>)
    ensures r.Some? <==> f.Some?
    ensures r.Some? ==> Trimmed(r.value) && |r.value| <= |f.value|
  {
    if f.Some? then Some(Trim(f.value)) else None
  }

  /**
    `new Task({...})` followed by `save()`: setters (trim, defaults) run first,
    then the validators; a failed validation saves nothing (`None`).
   */
  function NewTask(id: Id, user: Id, text: Option<string>, details: Option<string>,
                   priority: Option<string>, now: int): (r: Option<Task>)
    ensures r.Some? <==> (text.Some? && Trim(text.value) != ""
                          && (priority.None? || InEnum(priority.value)))
    ensures r.Some? ==> Valid(r.value)
    ensures r.Some? ==> r.value.id == id && r.value.user == user && r.value.createdAt == now
    ensures r.Some? ==> r.value.text == Trim(text.value) && r.value.details == TrimField(details)
    ensures r.Some? && priority.None? ==> r.value.priority == PriorityName(DefaultPriority)
    ensures r.Some? && priority.Some? ==> r.value.priority == priority.value
  {
    var doc := Task(id, user,
                    if text.Some? then Trim(text.value) else "",
                    TrimField(details),
                    if priority.Some? then priority.value else PriorityName(DefaultPriority),
                    now);
    if text.Some? && doc.text != "" && InEnum(doc.priority) then
      TrimIdempotent(text.value);
      TrimIdempotent(if details.Some? then details.value else "");
      Some(doc)
    else
      None
  }

  /** Strings that are already trimmed and a priority on the enum are saved unchanged. */
  lemma NewTaskOfTrimmed(id: Id, user: Id, text: string, details: string, priority: string, now: int)
    requires text != "" && Trimmed(text) && Trimmed(details) && InEnum(priority)
    ensures NewTask(id, user, Some(text), Some(details), Some(priority), now)
            == Some(Task(id, user, text, Some(details), priority, now))
  {
    TrimOfTrimmed(text);
    TrimOfTrimmed(details);
  }

  /** A document is valid exactly when saving it through the schema leaves it unchanged. */
  lemma ValidIffSavedUnchanged(t: Task)
    ensures Valid(t) <==>
            NewTask(t.id, t.user, Some(t.text), t.details, Some(t.priority), t.createdAt) == Some(t)
  {
    if Valid(t) {
      assert Trim(t.text) == t.text;
      if t.details.Some? {
        assert Trim(t.details.value) == t.details.value;
      }
    }
  }
}
