/**
  The task body validator of models/Task.js: the Joi schema applied by
  `joiValidate` to a request body, and the two validators of the persisted
  Mongoose schema (`required` on title, `enum` on labelType).

  A request body is a JSON object, modelled as a map from key to value.
 */
module TaskSchema {

  /** A JSON value as it arrives in a request body (numbers are integers here). */
  datatype Value = Str(s: string) | Num(n: int) | Bool(b: bool) | Arr(items: seq<Value>) | Null

  /** A request body: a JSON object. */
  type Body = map<string, Value>

  /** The keys the Joi object schema declares; any other key is refused. */
  const DeclaredKeys: set<string> :=
    {"title", "column_id", "description", "multipleFileName", "multipleFilePath",
     "column_title", "expireAt", "label", "labelType"}

  /** The values `labelType` may take under the Joi schema, in its order. */
  const ValidatorLabelTypes: seq<string> := ["danger", "warning", "primary", "success", "info", "dark"]

  /** The `enum` of the persisted schema's `labelType` path, in its order. */
  const StoredLabelTypes: seq<string> := ["danger", "warning", "primary", "info", "dark", "success"]

  /** `Joi.string()`: a string, and not the empty string (Joi refuses '' unless allowed). */
  predicate JoiString(v: Value) {
    v.Str? && |v.s| > 0
  }

  /**
    The JavaScript `length` of a string: its number of UTF-16 code units,
    two for a character above U+FFFF and one for any other.
   */
  function Utf16Length(s: string): nat {
    if s == [] then 0
    else (if s[0] as int > 0xFFFF then 2 else 1) + Utf16Length(s[1..])
  }

  /** A string has at least as many code units as characters, and at most twice as many. */
  lemma {:induction false} Utf16LengthBounds(s: string)
    ensures |s| <= Utf16Length(s) <= 2 * |s|
  {
    if s != [] {
      Utf16LengthBounds(s[1..]);
    }
  }

  /** Without characters above U+FFFF, the JavaScript length is the number of characters. */
  lemma {:induction false} Utf16LengthBmp(s: string)
    requires forall i :: 0 <= i < |s| ==> s[i] as int <= 0xFFFF
    ensures Utf16Length(s) == |s|
  {
    if s != [] {
      Utf16LengthBmp(s[1..]);
    }
  }

  /** `Joi.string().min(lo).max(hi)`: Joi compares the JavaScript length. */
  predicate JoiStringBetween(v: Value, lo: nat, hi: nat) {
    v.Str? && lo <= Utf16Length(v.s) <= hi
  }

  /** `Joi.array()`. */
  predicate JoiArray(v: Value) {
    v.Arr?
  }

  /** `Joi.date()`: a timestamp, or a string Joi converts to a date (parsing not modelled). */
  predicate JoiDate(v: Value) {
    v.Num? || (v.Str? && |v.s| > 0)
  }

  /** `Joi.string().valid(...)` with the validator's six label types. */
  predicate JoiLabelType(v: Value) {
    v.Str? && v.s in ValidatorLabelTypes
  }

  /** An optional key: when present, its value satisfies `ok`. */
  predicate Optional(b: Body, key: string, ok: Value -> bool) {
    key in b ==> ok(b[key])
  }

  /** `Joi.validate(obj, taskSchema)` succeeds. */
  predicate TaskValid(b: Body): (r: bool)
    ensures r ==> "title" in b && b.Keys <= DeclaredKeys
  {
    && b.Keys <= DeclaredKeys
    && "title" in b && JoiStringBetween(b["title"], 3, 60)
    && Optional(b, "column_id", JoiString)
    && Optional(b, "description", JoiString)
    && Optional(b, "multipleFileName", JoiArray)
    && Optional(b, "multipleFilePath", JoiArray)
    && Optional(b, "column_title", JoiString)
    && Optional(b, "expireAt", JoiDate)
    && Optional(b, "label", v => JoiStringBetween(v, 3, 15))
    && Optional(b, "labelType", JoiLabelType)
  }

  /**
    The persisted schema's validators: `title` is `required` (after the
    String cast a number or boolean becomes a non-empty string, an array does
    not cast, and '' fails `required`) and `labelType`, when set, is in its
    `enum` (a non-string casts to a string that is never in it).
   */
  predicate PersistedValid(b: Body): (r: bool)
    ensures r ==> "title" in b
  {
    && "title" in b
    && (match b["title"]
        case Str(s) => |s| > 0
        case Num(_) => true
        case Bool(_) => true
        case _ => false)
    && ("labelType" in b ==> b["labelType"].Str? && b["labelType"].s in StoredLabelTypes)
  }

  /** A body holding only a title is accepted exactly when the title's JavaScript length is 3 to 60. */
  lemma TitleOnlyBody(t: string)
    ensures TaskValid(map["title" := Str(t)]) <==> 3 <= Utf16Length(t) <= 60
  {
  }

  /**
    A character above U+FFFF counts twice: two emoji make a title of
    JavaScript length 4, which is accepted.
   */
  lemma AstralCharsCountTwice()
    ensures Utf16Length("\U{1F600}\U{1F600}") == 4
    ensures TaskValid(map["title" := Str("\U{1F600}\U{1F600}")])
  {
    assert "\U{1F600}\U{1F600}"[1..] == "\U{1F600}";
    assert "\U{1F600}"[1..] == "";
  }

  /** In a body of a title, a label and a label type, the other declared keys are absent. */
  lemma OtherKeysAbsent(b: Body)
    requires b.Keys == {"title", "label", "labelType"}
    ensures b.Keys <= DeclaredKeys
    ensures Optional(b, "column_id", JoiString) && Optional(b, "description", JoiString)
    ensures Optional(b, "multipleFileName", JoiArray) && Optional(b, "multipleFilePath", JoiArray)
    ensures Optional(b, "column_title", JoiString) && Optional(b, "expireAt", JoiDate)
  {
  }

  /** A body of a title, a label and a label type is accepted when each is within its bounds. */
  lemma TitleLabelBody(t: string, l: string, lt: string)
    requires 3 <= Utf16Length(t) <= 60 && 3 <= Utf16Length(l) <= 15
    requires lt in ValidatorLabelTypes
    ensures TaskValid(map["title" := Str(t), "label" := Str(l), "labelType" := Str(lt)])
  {
    var b := map["title" := Str(t), "label" := Str(l), "labelType" := Str(lt)];
    OtherKeysAbsent(b);
    assert Optional(b, "label", v => JoiStringBetween(v, 3, 15));
    assert Optional(b, "labelType", JoiLabelType);
  }

  /** `title` is required: a body without it is refused. */
  lemma TitleRequired(b: Body)
    requires "title" !in b
    ensures !TaskValid(b)
  {
  }

  /** A non-string title, or one whose JavaScript length is outside 3..60, is refused. */
  lemma TitleBounds(b: Body)
    requires TaskValid(b)
    ensures b["title"].Str? && 3 <= Utf16Length(b["title"].s) <= 60
  {
  }

  /** A present label has a JavaScript length of 3 to 15; a present labelType is one of the six. */
  lemma LabelBounds(b: Body)
    requires TaskValid(b)
    ensures "label" in b ==> b["label"].Str? && 3 <= Utf16Length(b["label"].s) <= 15
    ensures "labelType" in b ==> b["labelType"].Str? && b["labelType"].s in ValidatorLabelTypes
  {
  }

  /** Every key but title is optional: dropping it from an accepted body keeps it accepted. */
  lemma OptionalKeysDroppable(b: Body, k: string)
    requires TaskValid(b) && k != "title"
    ensures TaskValid(b - {k})
  {
  }

  /** A key the schema does not declare makes the body refused. */
  lemma UnknownKeyRefused(b: Body, k: string)
    requires k in b && k !in DeclaredKeys
    ensures !TaskValid(b)
  {
  }

  /** The two label type lists hold the same six values. */
  lemma LabelTypeListsAgree()
    ensures (set x | x in ValidatorLabelTypes) == (set x | x in StoredLabelTypes)
    ensures |set x | x in StoredLabelTypes| == 6
  {
    assert StoredLabelTypes == ["danger", "warning", "primary", "info", "dark", "success"];
    var s := set x | x in StoredLabelTypes;
    assert s == {"danger", "warning", "primary", "info", "dark", "success"};
  }

  /** A body the validator accepts also passes the persisted schema's validators. */
  lemma ValidatedIsPersistable(b: Body)
    requires TaskValid(b)
    ensures PersistedValid(b)
  {
    if "labelType" in b {
      LabelTypeListsAgree();
      assert b["labelType"].s in set x | x in ValidatorLabelTypes;
    }
  }
}
