/** Option type shared by every module of the model. */
module Wrappers {
  datatype Option<+T> = None | Some(value: T) {
    /** The JavaScript idiom `x || fallback` for a value that may be missing. */
    function GetOr(fallback: T): T {
      match this
      case Some(v) => v
      case None => fallback
    }
  }

  datatype Result<+T, +E> = Success(value: T) | Failure(error: E)
}

/**
 * The form definition (the data contract shared by the builder, the React
 * widget and the generated embed script) and the validation rules that both
 * runtimes apply to a field.
 */
module Forms {
  import opened Wrappers

  /** The seven input types offered by the builder's type selector. */
  datatype FieldKind = Text | Email | Number | Textarea | Tel | Url | Date

  /** A field as the embedded configuration carries it: exactly four attributes. */
  datatype Field = Field(id: string, kind: FieldKind, labelText: string, required: bool)

  datatype Step = Step(id: string, title: string, fields: seq<Field>)

  /** Style tokens: category name to property name to value. */
  type Styles = map<string, map<string, string>>

  /**
   * The configuration object embedded in the generated script. A missing or
   * empty `formAction` is the empty string.
   */
  datatype Config = Config(
    id: string,
    title: string,
    useNetlify: bool,
    formAction: string,
    steps: seq<Step>,
    styles: Styles)

  /** Any other attributes a stored JSON object carries (database keys and the like). */
  type Attrs = map<string, string>

  /** Records as the builder edits them and the store returns them. */
  datatype FieldRecord = FieldRecord(id: string, kind: FieldKind, labelText: string, required: bool, extras: Attrs)
  datatype StepRecord = StepRecord(id: string, title: string, fields: seq<FieldRecord>, extras: Attrs)
  datatype FormRecord = FormRecord(
    id: string,
    title: string,
    useNetlify: bool,
    formAction: string,
    steps: seq<StepRecord>,
    styles: Styles,
    extras: Attrs)

  /** What a final submit leads to. */
  datatype SubmitOutcome =
    | Rejected                                  // some field of the current step failed
    | NativeSubmit                              // handed to the browser's own form submission
    | Accepted(data: map<string, string>)       // handled in the page; the widget resets

  // ---------------------------------------------------------------------
  // JavaScript whitespace: the class `\s` of regular expressions, which is
  // also the set of characters `String.prototype.trim` removes.
  // ---------------------------------------------------------------------

  predicate IsJsSpace(c: char) {
    c == '\t' || c == '\n' || c == '\U{B}' || c == '\U{C}' || c == '\r' || c == ' '
    || c == '\U{A0}' || c == '\U{1680}' || ('\U{2000}' <= c <= '\U{200A}')
    || c == '\U{2028}' || c == '\U{2029}' || c == '\U{202F}' || c == '\U{205F}'
    || c == '\U{3000}' || c == '\U{FEFF}'
  }

  // ---------------------------------------------------------------------
  // The email rule: /^[^\s@]+@[^\s@]+\.[^\s@]+$/
  // ---------------------------------------------------------------------

  /** A character the class `[^\s@]` accepts. */
  predicate EmailChar(c: char) {
    c != '@' && !IsJsSpace(c)
  }

  predicate AllEmailChars(s: string) {
    forall i :: 0 <= i < |s| ==> EmailChar(s[i])
  }

  /** `at` and `dot` split `s` into the three runs the regular expression asks for. */
  predicate EmailSplit(s: string, at: int, dot: int) {
    0 < at && at + 1 < dot && dot + 1 < |s| && s[at] == '@' && s[dot] == '.'
    && AllEmailChars(s[..at]) && AllEmailChars(s[at + 1..dot]) && AllEmailChars(s[dot + 1..])
  }

  /**
   * The language of the regular expression: three non-empty runs of `[^\s@]`
   * joined by '@' and by a literal '.'.
   */
  ghost predicate MatchesEmailPattern(s: string) {
    exists at, dot :: EmailSplit(s, at, dot)
  }

  /** Some '.' lies after position `at + 1` and before the last character. */
  predicate InnerDotAfter(s: string, at: nat) {
    exists dot | at + 1 < dot < |s| - 1 :: s[dot] == '.'
  }

  /** Position `at` holds the only '@', no whitespace surrounds it, and a '.' follows it. */
  predicate AtSplit(s: string, at: int)
    requires 0 <= at < |s|
  {
    s[at] == '@' && AllEmailChars(s[..at]) && AllEmailChars(s[at + 1..]) && InnerDotAfter(s, at)
  }

  /**
   * The check as the runtime evaluates it: a single '@' that is not first,
   * no whitespace and no second '@' on either side, and a '.' after the '@'
   * that is neither right after it nor last.
   */
  predicate IsEmailShaped(s: string) {
    exists at | 0 < at < |s| :: AtSplit(s, at)
  }

  lemma AllEmailCharsSlice(s: string, i: int, j: int)
    requires 0 <= i <= j <= |s|
    requires AllEmailChars(s)
    ensures AllEmailChars(s[i..j])
  {
    assert forall k :: 0 <= k < j - i ==> s[i..j][k] == s[i + k];
  }

  lemma AtSplitGivesEmailSplit(s: string, at: int) returns (dot: int)
    requires 0 < at < |s| && AtSplit(s, at)
    ensures EmailSplit(s, at, dot)
  {
    dot :| at + 1 < dot < |s| - 1 && s[dot] == '.';
    var rest := s[at + 1..];
    AllEmailCharsSlice(rest, 0, dot - at - 1);
    AllEmailCharsSlice(rest, dot - at, |rest|);
    assert rest[0..dot - at - 1] == s[at + 1..dot];
    assert rest[dot - at..|rest|] == s[dot + 1..];
  }

  lemma EmailSplitGivesAtSplit(s: string, at: int, dot: int)
    requires EmailSplit(s, at, dot)
    ensures AtSplit(s, at)
  {
    var rest := s[at + 1..];
    var left, right := s[at + 1..dot], s[dot + 1..];
    forall k | 0 <= k < |rest|
      ensures EmailChar(rest[k])
    {
      if k < dot - at - 1 {
        assert rest[k] == left[k];
      } else if k > dot - at - 1 {
        assert rest[k] == right[k - (dot - at)];
      }
    }
    assert at + 1 < dot < |s| - 1 && s[dot] == '.';
  }

  /** The runtime check accepts exactly the language of the regular expression. */
  lemma EmailCheckIsRegex(s: string)
    ensures IsEmailShaped(s) <==> MatchesEmailPattern(s)
  {
    if IsEmailShaped(s) {
      var at :| 0 < at < |s| && AtSplit(s, at);
      var dot := AtSplitGivesEmailSplit(s, at);
    }
    if MatchesEmailPattern(s) {
      var at, dot :| EmailSplit(s, at, dot);
      EmailSplitGivesAtSplit(s, at, dot);
    }
  }

  /** A well-formed address passes. */
  lemma EmailAccepted()
    ensures IsEmailShaped("a@b.co")
  {
    var s := "a@b.co";
    assert s[3] == '.';
    assert InnerDotAfter(s, 1);
    assert AtSplit(s, 1);
  }

  /** An address without a dot after the '@', and a bare word, fail. */
  lemma EmailRejected()
    ensures !IsEmailShaped("a@b") && !IsEmailShaped("a") && !IsEmailShaped("@b.co") && !IsEmailShaped("a@b.")
  {
    var t := "@b.co";
    assert forall at | 0 < at < |t| :: t[at] != '@';
  }

  // ---------------------------------------------------------------------
  // Field validation, shared by both runtimes.
  // ---------------------------------------------------------------------

  const RequiredMessage := "This field is required"
  const EmailMessage := "Please enter a valid email address"
  const NumberMessage := "Please enter a valid number"

  /** The value a runtime sees for a field: a missing entry reads as the empty string. */
  function ValueOf(data: map<string, string>, id: string): string {
    if id in data then data[id] else ""
  }

  /**
   * The three rules in order of precedence; the empty string means valid.
   * `isNaN` stands for JavaScript's coercing `isNaN` on a string.
   */
  function ValidateField(field: Field, value: string, isNaN: string -> bool): (message: string)
    ensures message in {"", RequiredMessage, EmailMessage, NumberMessage}
  {
    if field.required && value == "" then RequiredMessage
    else if field.kind == Email && value != "" && !IsEmailShaped(value) then EmailMessage
    else if field.kind == Number && value != "" && isNaN(value) then NumberMessage
    else ""
  }

  /** The required rule fires exactly on a required, empty field, whatever its type. */
  lemma RequiredRule(field: Field, value: string, isNaN: string -> bool)
    ensures ValidateField(field, value, isNaN) == RequiredMessage <==> field.required && value == ""
  {
  }

  /** An empty optional field is always valid: type checks run only on non-empty values. */
  lemma EmptyOptionalPasses(field: Field, isNaN: string -> bool)
    requires !field.required
    ensures ValidateField(field, "", isNaN) == ""
  {
  }

  /** The email message appears exactly for a non-empty email value that fails the pattern. */
  lemma EmailRule(field: Field, value: string, isNaN: string -> bool)
    ensures ValidateField(field, value, isNaN) == EmailMessage
        <==> field.kind == Email && value != "" && !MatchesEmailPattern(value)
  {
    EmailCheckIsRegex(value);
  }

  /** The number message appears exactly for a non-empty number value that `isNaN` rejects. */
  lemma NumberRule(field: Field, value: string, isNaN: string -> bool)
    ensures ValidateField(field, value, isNaN) == NumberMessage
        <==> field.kind == Number && value != "" && isNaN(value)
  {
  }

  /** Text-like kinds never get a type error: only the required rule applies to them. */
  lemma OtherKindsOnlyRequired(field: Field, value: string, isNaN: string -> bool)
    requires field.kind !in {Email, Number}
    ensures ValidateField(field, value, isNaN) == (if field.required && value == "" then RequiredMessage else "")
  {
  }

  predicate FieldPasses(field: Field, data: map<string, string>, isNaN: string -> bool) {
    ValidateField(field, ValueOf(data, field.id), isNaN) == ""
  }

  /** Every field of the sequence passes. */
  predicate AllPass(fields: seq<Field>, data: map<string, string>, isNaN: string -> bool) {
    forall i :: 0 <= i < |fields| ==> FieldPasses(fields[i], data, isNaN)
  }

  /**
   * The error map the React widget builds for a step: only failing fields get
   * an entry, fields are visited in order, a later field overwrites an earlier
   * one with the same id.
   */
  function Failures(fields: seq<Field>, data: map<string, string>, isNaN: string -> bool): map<string, string>
  {
    if fields == [] then map[]
    else
      var last := fields[|fields| - 1];
      var m := Failures(fields[..|fields| - 1], data, isNaN);
      var e := ValidateField(last, ValueOf(data, last.id), isNaN);
      if e != "" then m[last.id := e] else m
  }

  /**
   * The messages the embed script writes for a step: every field gets an entry
   * (the empty string when it passes), in order, later fields overwriting.
   */
  function Messages(fields: seq<Field>, data: map<string, string>, isNaN: string -> bool): map<string, string>
  {
    if fields == [] then map[]
    else
      var last := fields[|fields| - 1];
      Messages(fields[..|fields| - 1], data, isNaN)[last.id := ValidateField(last, ValueOf(data, last.id), isNaN)]
  }

  /** The ids of the fields that fail. */
  ghost predicate FailsSome(fields: seq<Field>, data: map<string, string>, isNaN: string -> bool, id: string) {
    exists i :: 0 <= i < |fields| && fields[i].id == id && !FieldPasses(fields[i], data, isNaN)
  }

  /** The widget's error map has an entry for `id` exactly when a field with that id fails, and it is a real message. */
  lemma {:induction false} FailuresExactAt(fields: seq<Field>, data: map<string, string>, isNaN: string -> bool, id: string)
    ensures id in Failures(fields, data, isNaN) <==> FailsSome(fields, data, isNaN, id)
    ensures id in Failures(fields, data, isNaN) ==> Failures(fields, data, isNaN)[id] != ""
  {
    if fields != [] {
      var init := fields[..|fields| - 1];
      FailuresExactAt(init, data, isNaN, id);
      FailsSomeSnoc(fields, data, isNaN, id);
    }
  }

  /** A field with `id` fails among all but the last, or it is the last. */
  lemma FailsSomeSnoc(fields: seq<Field>, data: map<string, string>, isNaN: string -> bool, id: string)
    requires fields != []
    ensures var last := fields[|fields| - 1];
            FailsSome(fields, data, isNaN, id)
            <==> FailsSome(fields[..|fields| - 1], data, isNaN, id) || (last.id == id && !FieldPasses(last, data, isNaN))
  {
    ExistsSnoc(fields, fields[..|fields| - 1], (f: Field) => f.id == id && !FieldPasses(f, data, isNaN));
  }

  /** Some element satisfies `p` exactly when some element before the last does, or the last does. */
  lemma ExistsSnoc<T>(s: seq<T>, init: seq<T>, p: T -> bool)
    requires s != [] && init == s[..|s| - 1]
    ensures (exists i :: 0 <= i < |s| && p(s[i]))
        <==> (exists i :: 0 <= i < |init| && p(init[i])) || p(s[|s| - 1])
  {
    if i :| 0 <= i < |s| && p(s[i]) {
      if i < |init| {
        assert init[i] == s[i];
      }
    }
    if i :| 0 <= i < |init| && p(init[i]) {
      assert s[i] == init[i];
    }
  }

  lemma FailuresExact(fields: seq<Field>, data: map<string, string>, isNaN: string -> bool)
    ensures forall id :: id in Failures(fields, data, isNaN) <==> FailsSome(fields, data, isNaN, id)
    ensures forall id :: id in Failures(fields, data, isNaN) ==> Failures(fields, data, isNaN)[id] != ""
  {
    forall id
      ensures id in Failures(fields, data, isNaN) <==> FailsSome(fields, data, isNaN, id)
      ensures id in Failures(fields, data, isNaN) ==> Failures(fields, data, isNaN)[id] != ""
    {
      FailuresExactAt(fields, data, isNaN, id);
    }
  }

  /** The widget's error map is empty exactly when every field of the step passes. */
  lemma FailuresEmptyIffAllPass(fields: seq<Field>, data: map<string, string>, isNaN: string -> bool)
    ensures Failures(fields, data, isNaN) == map[] <==> AllPass(fields, data, isNaN)
  {
    if AllPass(fields, data, isNaN) {
      forall id ensures id !in Failures(fields, data, isNaN) {
        FailuresExactAt(fields, data, isNaN, id);
      }
    } else {
      var i :| 0 <= i < |fields| && !FieldPasses(fields[i], data, isNaN);
      FailuresExactAt(fields, data, isNaN, fields[i].id);
    }
  }

  /** The embed's message map has exactly the step's field ids as keys. */
  lemma {:induction false} MessagesKeys(fields: seq<Field>, data: map<string, string>, isNaN: string -> bool)
    ensures Messages(fields, data, isNaN).Keys == set i | 0 <= i < |fields| :: fields[i].id
  {
    if fields != [] {
      var init := fields[..|fields| - 1];
      MessagesKeys(init, data, isNaN);
      var ks := set i | 0 <= i < |fields| :: fields[i].id;
      var ki := set i | 0 <= i < |init| :: init[i].id;
      assert ks == ki + {fields[|fields| - 1].id} by {
        forall id | id in ks ensures id in ki + {fields[|fields| - 1].id} {
          var i :| 0 <= i < |fields| && fields[i].id == id;
          if i < |init| { assert init[i] == fields[i]; }
        }
        forall id | id in ki ensures id in ks {
          var i :| 0 <= i < |init| && init[i].id == id;
          assert fields[i] == init[i];
        }
      }
    }
  }

  /** Field ids of the sequence are pairwise distinct. */
  predicate UniqueIds(fields: seq<Field>) {
    forall i, j :: 0 <= i < j < |fields| ==> fields[i].id != fields[j].id
  }

  /** Dropping the last field keeps the ids distinct, and the last id differs from every earlier one. */
  lemma UniqueInit(fields: seq<Field>, i: int)
    requires UniqueIds(fields) && 0 <= i < |fields| - 1
    ensures var init := fields[..|fields| - 1];
            UniqueIds(init) && init[i] == fields[i] && fields[|fields| - 1].id != fields[i].id
  {
    var init := fields[..|fields| - 1];
    assert forall a :: 0 <= a < |init| ==> init[a] == fields[a];
  }

  /** The message for a field whose id occurs once is that field's own verdict. */
  lemma {:induction false} MessageOfField(fields: seq<Field>, data: map<string, string>, isNaN: string -> bool, i: int)
    requires UniqueIds(fields) && 0 <= i < |fields|
    ensures fields[i].id in Messages(fields, data, isNaN)
    ensures Messages(fields, data, isNaN)[fields[i].id] == ValidateField(fields[i], ValueOf(data, fields[i].id), isNaN)
  {
    var init := fields[..|fields| - 1];
    if i < |fields| - 1 {
      UniqueInit(fields, i);
      MessageOfField(init, data, isNaN, i);
    }
  }

  /** The same for the widget's map, when the field fails. */
  lemma {:induction false} FailureOfField(fields: seq<Field>, data: map<string, string>, isNaN: string -> bool, i: int)
    requires UniqueIds(fields) && 0 <= i < |fields| && !FieldPasses(fields[i], data, isNaN)
    ensures fields[i].id in Failures(fields, data, isNaN)
    ensures Failures(fields, data, isNaN)[fields[i].id] == ValidateField(fields[i], ValueOf(data, fields[i].id), isNaN)
  {
    var init, last := fields[..|fields| - 1], fields[|fields| - 1];
    var m := Failures(init, data, isNaN);
    var e := ValidateField(last, ValueOf(data, last.id), isNaN);
    assert Failures(fields, data, isNaN) == if e != "" then m[last.id := e] else m;
    if i < |fields| - 1 {
      UniqueInit(fields, i);
      FailureOfField(init, data, isNaN, i);
      if e != "" {
        assert m[last.id := e][fields[i].id] == m[fields[i].id];
      }
    } else {
      assert last == fields[i];
    }
  }

  /**
   * With distinct field ids the two runtimes record the same errors: the
   * widget's map is the embed's map with the passing (empty) entries dropped.
   */
  lemma RuntimesRecordSameErrors(fields: seq<Field>, data: map<string, string>, isNaN: string -> bool)
    requires UniqueIds(fields)
    ensures Failures(fields, data, isNaN)
         == map id | id in Messages(fields, data, isNaN) && Messages(fields, data, isNaN)[id] != ""
                   :: Messages(fields, data, isNaN)[id]
  {
    var f := Failures(fields, data, isNaN);
    var m := Messages(fields, data, isNaN);
    var g := map id | id in m && m[id] != "" :: m[id];
    FailuresExact(fields, data, isNaN);
    MessagesKeys(fields, data, isNaN);
    forall id | id in f ensures id in g && g[id] == f[id] {
      var i :| 0 <= i < |fields| && fields[i].id == id && !FieldPasses(fields[i], data, isNaN);
      MessageOfField(fields, data, isNaN, i);
      FailureOfField(fields, data, isNaN, i);
    }
    forall id | id in g ensures id in f {
      assert id in m.Keys;
      var i :| 0 <= i < |fields| && fields[i].id == id;
      MessageOfField(fields, data, isNaN, i);
      assert FailsSome(fields, data, isNaN, id);
    }
  }

  /**
   * With a repeated id the two maps can disagree: a failing field followed by
   * a passing one with the same id leaves the widget's error but clears the
   * embed's message.
   */
  lemma DuplicateIdsDisagree(isNaN: string -> bool)
    ensures var fs := [Field("x", Text, "A", true), Field("x", Text, "B", false)];
            Failures(fs, map[], isNaN)["x"] == RequiredMessage && Messages(fs, map[], isNaN)["x"] == ""
  {
    var fs := [Field("x", Text, "A", true), Field("x", Text, "B", false)];
    assert fs[..1] == [fs[0]];
    assert fs[..1][..0] == [];
  }

  // ---------------------------------------------------------------------
  // Submission wiring of the rendered <form>, identical in both runtimes.
  // ---------------------------------------------------------------------

  /** The attributes and hidden input the runtimes put on the <form> element. */
  datatype FormElement = FormElement(
    dataNetlify: bool,
    hiddenFormName: Option<string>,
    action: Option<string>,
    httpMethod: string)

  function FormAttributes(config: Config): (e: FormElement)
    ensures e.dataNetlify <==> config.useNetlify
    ensures e.hiddenFormName == (if config.useNetlify then Some(config.title) else None)
    ensures e.action.Some? <==> config.formAction != ""
    ensures e.action.Some? ==> e.action.value == config.formAction
    ensures e.httpMethod == "POST"
  {
    FormElement(
      config.useNetlify,
      if config.useNetlify then Some(config.title) else None,
      if config.formAction != "" then Some(config.formAction) else None,
      "POST")
  }

  /** A valid final submit is handed to the browser exactly when a submission target is configured. */
  predicate Delegates(config: Config) {
    config.useNetlify || config.formAction != ""
  }

  /** Delegation happens exactly when the rendered form carries Netlify wiring or an action. */
  lemma DelegatesIffWired(config: Config)
    ensures Delegates(config) <==> FormAttributes(config).dataNetlify || FormAttributes(config).action.Some?
  {
  }
}
