/**
 The task-edit side sheet (`ViewTask` in src/app/app/frame/ViewTask.tsx),
 reduced to its pure logic: date normalisation, the `initial` and
 `current` field records, the field-by-field dirty check, the validity
 guard and the update payload `handleSubmit` sends.
 */
module TaskForm {
  import opened Wrappers

  datatype TaskStatus = Pending | InProgress | Completed | Cancelled {
    /** The enum's string value, as `String(status)` yields it. */
    function Name(): string {
      match this
      case Pending => "PENDING"
      case InProgress => "IN_PROGRESS"
      case Completed => "COMPLETED"
      case Cancelled => "CANCELLED"
    }
  }

  /**
   A due date as the server may hand it over: missing (`null` or
   `undefined`), a string, or a `Date` object, carried here by the string
   its host `toISOString()` renders, which is outside this model.
   */
  datatype DateValue = Absent | Text(text: string) | Instant(iso: string)

  /** The selected task, with the fields the sheet reads. */
  datatype Task = Task(
    id: string,
    title: Option<string>,
    description: Option<string>,
    dueDate: DateValue,
    status: Option<TaskStatus>,
    categoryId: Option<string>   // `task.category?.id`
  )

  /** The sheet's local React state (lines 39-43). */
  datatype FormState = FormState(
    title: string,
    description: string,
    dueDate: Option<string>,
    status: TaskStatus,
    categoryId: Option<string>
  )

  /** The five compared fields, all as strings (lines 66-80). */
  datatype Fields = Fields(title: string, description: string, dueDate: string, status: string, categoryId: string)

  datatype Key = TitleKey | DescriptionKey | DueDateKey | StatusKey | CategoryIdKey

  /** `Object.keys(initial)`, in declaration order. */
  const Keys: seq<Key> := [TitleKey, DescriptionKey, DueDateKey, StatusKey, CategoryIdKey]

  /** A field of a payload: left out (`undefined`), cleared (`null`) or set. */
  datatype PayloadField<T> = Omitted | Cleared | Set(value: T)

  /** The update `handleSubmit` sends (lines 97-106). */
  datatype UpdateRequest = UpdateRequest(
    id: string,
    title: string,
    description: string,
    dueDate: PayloadField<string>,   // the date string `new Date(...)` is built from
    status: TaskStatus,
    categoryId: PayloadField<string>
  )

  /** `s || ''` on an optional string. */
  function OrEmpty(s: Option<string>): (r: string)
    ensures s.None? ==> r == ""
    ensures s.Some? ==> r == s.value
  {
    match s
    case Some(v) => v
    case None => ""
  }

  /** `s.slice(0, 10)`. */
  function First10(s: string): (r: string)
    ensures |r| == (if |s| < 10 then |s| else 10) && r == s[..|r|]
  {
    if |s| <= 10 then s else s[..10]
  }

  /** `normalizeDate` (lines 26-31): a due date as a `YYYY-MM-DD` string, or ''. */
  function NormalizeDate(d: DateValue): (r: string)
    ensures d.Absent? ==> r == ""
    ensures d.Text? ==> |r| == (if |d.text| < 10 then |d.text| else 10) && r == d.text[..|r|]
    ensures d.Instant? ==> |r| == (if |d.iso| < 10 then |d.iso| else 10) && r == d.iso[..|r|]
  {
    match d
    case Absent => ""
    case Text(s) => if s == "" then "" else First10(s)
    case Instant(iso) => First10(iso)
  }

  /** Normalising a normalised date changes nothing. */
  lemma NormalizeDateIdempotent(d: DateValue)
    ensures NormalizeDate(Text(NormalizeDate(d))) == NormalizeDate(d)
  {
  }

  /** Line 61: what `task.category?.id` gives; lines 66-72: the `initial` record. */
  function Initial(selected: Option<Task>): (r: Fields)
    ensures selected.None? ==> r == Fields("", "", "", "PENDING", "")
    ensures selected.Some? ==> r.title == OrEmpty(selected.value.title)
    ensures selected.Some? ==> r.description == OrEmpty(selected.value.description)
    ensures selected.Some? ==> r.dueDate == NormalizeDate(selected.value.dueDate)
    ensures selected.Some? ==> r.categoryId == OrEmpty(selected.value.categoryId)
    ensures selected.Some? && selected.value.status.Some? ==> r.status == selected.value.status.value.Name()
    ensures selected.Some? && selected.value.status.None? ==> r.status == "PENDING"
  {
    match selected
    case None => Fields("", "", NormalizeDate(Absent), "PENDING", "")
    case Some(t) =>
      Fields(
        OrEmpty(t.title),
        OrEmpty(t.description),
        NormalizeDate(t.dueDate),
        if t.status.Some? then t.status.value.Name() else "PENDING",
        OrEmpty(t.categoryId))
  }

  /** Lines 74-80: the `current` record built from the local state. */
  function Current(st: FormState): (r: Fields)
    ensures r.title == st.title && r.description == st.description && r.status == st.status.Name()
    ensures r.dueDate == OrEmpty(st.dueDate) && r.categoryId == OrEmpty(st.categoryId)
    ensures r.dueDate == "" <==> st.dueDate.None? || st.dueDate.value == ""
    ensures r.categoryId == "" <==> st.categoryId.None? || st.categoryId.value == ""
  {
    Fields(st.title, st.description, OrEmpty(st.dueDate), st.status.Name(), OrEmpty(st.categoryId))
  }

  /** `task.status ? task.status : 'PENDING'` (line 60). */
  function StatusOrPending(s: Option<TaskStatus>): (r: TaskStatus)
    ensures s.Some? ==> r == s.value
    ensures s.None? ==> r == Pending
  {
    match s
    case Some(v) => v
    case None => Pending
  }

  /** Lines 46-62: the local state the effect loads from a newly selected task. */
  function Load(t: Task): (st: FormState)
    ensures st.title == OrEmpty(t.title) && st.description == OrEmpty(t.description)
    ensures st.status == StatusOrPending(t.status) && st.categoryId == t.categoryId
    ensures st.dueDate == Some(NormalizeDate(t.dueDate))
    ensures st.dueDate.Some? && |st.dueDate.value| <= 10
  {
    var dueDateStr :=
      match t.dueDate
      case Absent => ""
      case Text(s) => if s == "" then "" else First10(s)
      case Instant(iso) => First10(iso);
    FormState(OrEmpty(t.title), OrEmpty(t.description), Some(dueDateStr), StatusOrPending(t.status), t.categoryId)
  }

  function Field(f: Fields, k: Key): string {
    match k
    case TitleKey => f.title
    case DescriptionKey => f.description
    case DueDateKey => f.dueDate
    case StatusKey => f.status
    case CategoryIdKey => f.categoryId
  }

  /** `keys.some(key => a[key] !== b[key])`. */
  function AnyDiffers(a: Fields, b: Fields, keys: seq<Key>): (r: bool)
    ensures r <==> exists k :: 0 <= k < |keys| && Field(a, keys[k]) != Field(b, keys[k])
  {
    if |keys| == 0 then false
    else if Field(a, keys[0]) != Field(b, keys[0]) then true
    else
      var rest := AnyDiffers(a, b, keys[1..]);
      assert forall k :: 1 <= k < |keys| ==> keys[k] == keys[1..][k - 1];
      rest
  }

  /** `isDirty` (lines 83-85). */
  function IsDirty(selected: Option<Task>, st: FormState): (r: bool)
    ensures r ==> selected.Some?
    ensures r <==> selected.Some? &&
                   exists k :: 0 <= k < |Keys| && Field(Initial(selected), Keys[k]) != Field(Current(st), Keys[k])
  {
    selected.Some? && AnyDiffers(Initial(selected), Current(st), Keys)
  }

  /** The field-by-field check is exactly record inequality, when a task is selected. */
  lemma IsDirtyIffChanged(selected: Option<Task>, st: FormState)
    ensures IsDirty(selected, st) <==> selected.Some? && Initial(selected) != Current(st)
  {
    var a, b := Initial(selected), Current(st);
    if a != b {
      if a.title != b.title {
        assert Field(a, Keys[0]) != Field(b, Keys[0]);
      } else if a.description != b.description {
        assert Field(a, Keys[1]) != Field(b, Keys[1]);
      } else if a.dueDate != b.dueDate {
        assert Field(a, Keys[2]) != Field(b, Keys[2]);
      } else if a.status != b.status {
        assert Field(a, Keys[3]) != Field(b, Keys[3]);
      } else {
        assert Field(a, Keys[4]) != Field(b, Keys[4]);
      }
    }
  }

  /** A freshly loaded form is clean, so it cannot be submitted. */
  lemma LoadedFormIsClean(t: Task)
    ensures !IsDirty(Some(t), Load(t))
    ensures Submit(Some(t), Load(t)).None?
  {
    IsDirtyIffChanged(Some(t), Load(t));
  }

  /** `StrWhiteSpaceChar` of ECMAScript: white space and line terminators, which `trim` removes. */
  predicate IsWhitespace(c: char) {
    var n := c as int;
    n == 0x09 || n == 0x0A || n == 0x0B || n == 0x0C || n == 0x0D || n == 0x20 ||
    n == 0xA0 || n == 0x1680 || (0x2000 <= n <= 0x200A) || n == 0x2028 || n == 0x2029 ||
    n == 0x202F || n == 0x205F || n == 0x3000 || n == 0xFEFF
  }

  /** Some character of `s` is not white space. */
  ghost predicate HasContent(s: string) {
    exists k :: 0 <= k < |s| && !IsWhitespace(s[k])
  }

  function TrimStart(s: string): (r: string)
    ensures |r| <= |s| && r == s[|s| - |r|..]
    ensures forall k :: 0 <= k < |s| - |r| ==> IsWhitespace(s[k])
    ensures |r| > 0 ==> !IsWhitespace(r[0])
  {
    if |s| > 0 && IsWhitespace(s[0]) then TrimStart(s[1..]) else s
  }

  function TrimEnd(s: string): (r: string)
    ensures |r| <= |s| && r == s[..|r|]
    ensures forall k :: |r| <= k < |s| ==> IsWhitespace(s[k])
    ensures |r| > 0 ==> !IsWhitespace(r[|r| - 1])
  {
    if |s| > 0 && IsWhitespace(s[|s| - 1]) then TrimEnd(s[..|s| - 1]) else s
  }

  /** `r` is `s[a..]` cut to `|r|` characters, with only white space cut on either side. */
  ghost predicate TrimmedAt(s: string, r: string, a: nat) {
    && a + |r| <= |s|
    && r == s[a..a + |r|]
    && (forall k :: 0 <= k < a ==> IsWhitespace(s[k]))
    && (forall k :: a + |r| <= k < |s| ==> IsWhitespace(s[k]))
  }

  /** `s.trim()`: `s` without leading and trailing white space. */
  function Trim(s: string): (r: string)
    ensures |r| <= |s|
    ensures exists a :: TrimmedAt(s, r, a)
    ensures |r| > 0 ==> !IsWhitespace(r[0]) && !IsWhitespace(r[|r| - 1])
  {
    TrimCutsOnlyWhitespace(s);
    TrimEnd(TrimStart(s))
  }

  /** Trimming cuts white space at both ends and nothing else. */
  lemma TrimCutsOnlyWhitespace(s: string)
    ensures TrimmedAt(s, TrimEnd(TrimStart(s)), |s| - |TrimStart(s)|)
  {
    var t := TrimStart(s);
    var r := TrimEnd(t);
    var a := |s| - |t|;
    assert t == s[a..];
    assert r == t[..|r|];
    assert r == s[a..a + |r|];
    forall k | a + |r| <= k < |s|
      ensures IsWhitespace(s[k])
    {
      assert s[k] == t[k - a];
    }
  }

  /** A string trims to something non-empty exactly when it is not blank. */
  lemma TrimNonEmptyIffContent(s: string)
    ensures |Trim(s)| > 0 <==> HasContent(s)
  {
    var t := TrimStart(s);
    var r := TrimEnd(t);
    if |r| > 0 {
      assert r[0] == t[0] == s[|s| - |t|];
    }
  }

  /** `isFormValid` (line 87). */
  function IsFormValid(selected: Option<Task>, st: FormState): (r: bool)
    ensures r ==> IsDirty(selected, st) && HasContent(st.title) && HasContent(st.description)
  {
    TrimNonEmptyIffContent(st.title);
    TrimNonEmptyIffContent(st.description);
    |Trim(st.title)| > 0 && |Trim(st.description)| > 0 && IsDirty(selected, st)
  }

  /** Valid means: a task is selected, the form changed it, and title and description are not blank. */
  lemma IsFormValidIff(selected: Option<Task>, st: FormState)
    ensures IsFormValid(selected, st) <==>
              && selected.Some?
              && Initial(selected) != Current(st)
              && HasContent(st.title)
              && HasContent(st.description)
  {
    IsDirtyIffChanged(selected, st);
    TrimNonEmptyIffContent(st.title);
    TrimNonEmptyIffContent(st.description);
  }

  /** `handleSubmit` (lines 93-106): the update sent, or None when it returns early. */
  function Submit(selected: Option<Task>, st: FormState): (r: Option<UpdateRequest>)
    ensures r.Some? <==> selected.Some? && IsFormValid(selected, st)
    ensures r.Some? ==>
              && r.value.id == selected.value.id
              && r.value.title == st.title && r.value.description == st.description
              && r.value.status == st.status
              && (r.value.dueDate.Cleared? <==> OrEmpty(st.dueDate) == "")
              && (r.value.dueDate.Set? ==> r.value.dueDate.value == st.dueDate.value != "")
              && (OrEmpty(st.dueDate) != "" ==> r.value.dueDate == Set(st.dueDate.value))
              && (r.value.categoryId.Omitted? <==> OrEmpty(st.categoryId) == "")
              && (r.value.categoryId.Set? ==> r.value.categoryId.value == st.categoryId.value != "")
              && (OrEmpty(st.categoryId) != "" ==> r.value.categoryId == Set(st.categoryId.value))
  {
    if selected.None? then None
    else if !IsFormValid(selected, st) then None
    else
      var dueDate := if OrEmpty(st.dueDate) != "" then Set(st.dueDate.value) else Cleared;
      var categoryId := if OrEmpty(st.categoryId) != "" then Set(st.categoryId.value) else Omitted;
      Some(UpdateRequest(selected.value.id, st.title, st.description, dueDate, st.status, categoryId))
  }
}
