/**
 * The plural translation widget of the translation form: the newline
 * escaping of textarea contents, the reading back of the posted fields
 * `name`, `name_1`, ... `name_9`, and the rendering loop that names one
 * textarea per plural form, gives each a cumulative id and labels it.
 * Django's textarea rendering, gettext and the language's plural labels are
 * opaque collaborators, passed in as function values.
 */
module TransForms {
  import opened Results

  /** The Python exceptions the widget can raise. */
  datatype PyError = IndexError | AttributeError | KeyError(key: string)

  // ---------------------------------------------------------------------------
  // Decimal numbers and field names

  function Digit(d: nat): (c: char)
    requires d < 10
    ensures '0' <= c <= '9'
  {
    (48 + d) as char
  }

  /** `'%d' % n` for a non-negative `n`. */
  function Decimal(n: nat): string
    decreases n
  {
    if n < 10 then [Digit(n)] else Decimal(n / 10) + [Digit(n % 10)]
  }

  /** A number below ten prints as one digit, a larger one as at least two. */
  lemma {:induction false} DecimalLength(n: nat)
    ensures 1 <= |Decimal(n)|
    ensures n >= 10 ==> |Decimal(n)| >= 2
    decreases n
  {
    if n >= 10 {
      DecimalLength(n / 10);
    }
  }

  /** Different numbers print differently. */
  lemma {:induction false} DecimalInjective(a: nat, b: nat)
    requires Decimal(a) == Decimal(b)
    ensures a == b
    decreases a
  {
    DecimalLength(a);
    DecimalLength(b);
    if a >= 10 && b >= 10 {
      var da, db := Decimal(a), Decimal(b);
      assert da[|da| - 1] == Digit(a % 10) && db[|db| - 1] == Digit(b % 10);
      assert da[..|da| - 1] == Decimal(a / 10) && db[..|db| - 1] == Decimal(b / 10);
      DecimalInjective(a / 10, b / 10);
    } else if a < 10 && b < 10 {
      assert Decimal(a)[0] == Digit(a) && Decimal(b)[0] == Digit(b);
    }
  }

  /** The name of the field for plural form `idx`: `name`, then `name_1`, `name_2`, ... */
  function FieldName(name: string, idx: nat): string {
    if idx == 0 then name else name + "_" + Decimal(idx)
  }

  /** Each plural form gets a field name of its own. */
  lemma FieldNamesDistinct(name: string, i: nat, j: nat)
    requires FieldName(name, i) == FieldName(name, j)
    ensures i == j
  {
    DecimalLength(i);
    DecimalLength(j);
    if i > 0 && j > 0 {
      var n := |name| + 1;
      assert Decimal(i) == FieldName(name, i)[n..];
      assert Decimal(j) == FieldName(name, j)[n..];
      DecimalInjective(i, j);
    }
  }

  // ---------------------------------------------------------------------------
  // escape_newline

  /**
   * What an HTML parser does with the text right after a `<textarea>` start
   * tag: a single leading line feed is dropped.
   */
  function DropLeadingNewline(s: string): (r: string)
    ensures |s| > 0 && s[0] == '\n' ==> |r| == |s| - 1
  {
    if |s| > 0 && s[0] == '\n' then s[1..] else s
  }

  /**
   * `escape_newline` as written: it looks at `value[0]` before anything else,
   * so an empty value raises IndexError; on any other value the length guard
   * always holds and it prefixes a line feed exactly when the value starts with one.
   */
  function EscapeNewlineAsWritten(value: string): (r: Result<string, PyError>)
    ensures r.Err? <==> value == []
    ensures r.Err? ==> r.error == IndexError
    ensures r.Ok? ==> r.value == EscapeNewline(value)
  {
    if |value| == 0 then Err(IndexError)
    else if value[0] == '\n' then Ok("\n" + value)
    else Ok(value)
  }

  /** The empty translation, the untranslated state of every message, makes it raise. */
  lemma EscapeNewlineAsWrittenRaisesOnEmpty()
    ensures EscapeNewlineAsWritten("") == Err(IndexError)
    ensures EscapeNewline("") == ""
  {
  }

  /**
   * `escape_newline` as intended: a value starting with a line feed gets one
   * more, so that the text the browser shows in the textarea is the value
   * itself; everything else is left alone.
   */
  function EscapeNewline(value: string): (r: string)
    ensures DropLeadingNewline(r) == value
    ensures |value| > 0 && value[0] == '\n' ==> r == "\n" + value
    ensures !(|value| > 0 && value[0] == '\n') ==> r == value
  {
    if |value| > 0 && value[0] == '\n' then "\n" + value else value
  }

  /** Without the escaping, a value starting with a line feed would lose it in the browser. */
  lemma UnescapedLosesNewline(value: string)
    requires |value| > 0 && value[0] == '\n'
    ensures DropLeadingNewline(value) != value
  {
    assert |DropLeadingNewline(value)| == |value| - 1;
  }

  // ---------------------------------------------------------------------------
  // Carriage-return removal

  /** `s.replace('\r', '')`. */
  function RemoveCR(s: string): (r: string)
    ensures '\r' !in r
    ensures |r| <= |s|
    ensures '\r' !in s ==> r == s
    decreases |s|
  {
    if s == [] then []
    else
      assert s == [s[0]] + s[1..];
      (if s[0] == '\r' then [] else [s[0]]) + RemoveCR(s[1..])
  }

  /** Removal deletes every `\r` and keeps every other character, as often as it occurs. */
  lemma {:induction false} RemoveCRKeepsOthers(s: string)
    ensures multiset(RemoveCR(s)) == multiset(s)['\r' := 0]
    decreases |s|
  {
    if s != [] {
      RemoveCRKeepsOthers(s[1..]);
      assert s == [s[0]] + s[1..];
    }
  }

  /**
   * Removal works piece by piece; with the contract above (the empty
   * string, a lone `\r` and a lone other character) this pins RemoveCR down
   * as "delete every `\r`, keep the rest in order".
   */
  lemma {:induction false} RemoveCRConcat(a: string, b: string)
    ensures RemoveCR(a + b) == RemoveCR(a) + RemoveCR(b)
    decreases |a|
  {
    if a != [] {
      assert (a + b)[1..] == a[1..] + b;
      assert (a + b)[0] == a[0];
      RemoveCRConcat(a[1..], b);
      var kept := if a[0] == '\r' then [] else [a[0]];
      assert RemoveCR(a) == kept + RemoveCR(a[1..]);
      assert RemoveCR(a + b) == kept + RemoveCR(a[1..] + b);
      assert kept + (RemoveCR(a[1..]) + RemoveCR(b)) == (kept + RemoveCR(a[1..])) + RemoveCR(b);
    } else {
      assert a + b == b;
    }
  }

  /** How a browser submits a textarea: every line feed becomes CR LF. */
  function ToCrlf(s: string): (r: string)
    ensures |r| >= |s|
    decreases |s|
  {
    if s == [] then []
    else (if s[0] == '\n' then "\r\n" else [s[0]]) + ToCrlf(s[1..])
  }

  /** Removing `\r` undoes the browser's line-break normalisation. */
  lemma {:induction false} RemoveCRUndoesCrlf(s: string)
    requires '\r' !in s
    ensures RemoveCR(ToCrlf(s)) == s
    decreases |s|
  {
    if s != [] {
      var head := if s[0] == '\n' then "\r\n" else [s[0]];
      assert s == [s[0]] + s[1..];
      RemoveCRConcat(head, ToCrlf(s[1..]));
      RemoveCRUndoesCrlf(s[1..]);
      if s[0] == '\n' {
        assert head == ['\r'] + ['\n'];
        RemoveCRConcat(['\r'], ['\n']);
      }
    }
  }

  // ---------------------------------------------------------------------------
  // value_from_datadict

  /** The posted form data: one string per submitted field. */
  type FormData = map<string, string>

  /**
   * `vals` is what reading `name` back yields: one to ten values, the
   * `i`-th being field `FieldName(name, i)` without `\r`, and the field
   * after the last one missing unless all ten were read.
   */
  ghost predicate IsReadBack(data: FormData, name: string, vals: seq<string>) {
    && 1 <= |vals| <= 10
    && (forall i :: 0 <= i < |vals| ==> FieldName(name, i) in data && vals[i] == RemoveCR(data[FieldName(name, i)]))
    && (|vals| < 10 ==> FieldName(name, |vals|) !in data)
  }

  /** The fields for plural forms `idx`, `idx + 1`, ... up to 9, stopping at the first missing one. */
  function ReadFrom(data: FormData, name: string, idx: nat): (r: seq<string>)
    requires idx <= 10
    ensures |r| <= 10 - idx
    ensures forall j :: idx <= j < idx + |r| ==>
      FieldName(name, j) in data && r[j - idx] == RemoveCR(data[FieldName(name, j)])
    ensures idx + |r| < 10 ==> FieldName(name, idx + |r|) !in data
    decreases 10 - idx
  {
    if idx == 10 || FieldName(name, idx) !in data then []
    else
      var rest := ReadFrom(data, name, idx + 1);
      var r := [RemoveCR(data[FieldName(name, idx)])] + rest;
      r
  }

  /**
   * What `value_from_datadict` returns: `None.replace` raises when `name`
   * itself was not posted; otherwise the list of values read back.
   */
  function ReadPluralForms(data: FormData, name: string): (r: Result<seq<string>, PyError>)
    ensures r.Err? <==> name !in data
    ensures r.Err? ==> r.error == AttributeError
    ensures r.Ok? ==> IsReadBack(data, name, r.value)
  {
    if name !in data then Err(AttributeError)
    else
      assert FieldName(name, 0) == name;
      Ok(ReadFrom(data, name, 0))
  }

  /** There is only one read-back: the values and where they stop are fixed by the data. */
  lemma ReadBackUnique(data: FormData, name: string, a: seq<string>, b: seq<string>)
    requires IsReadBack(data, name, a) && IsReadBack(data, name, b)
    ensures a == b
  {
  }

  /**
   * The list comprehension applying `replace('\r', '')` to each collected
   * value: a missing value (`None`) has no `replace` and raises AttributeError.
   */
  function StripEach(raw: seq<Option<string>>): (r: Result<seq<string>, PyError>)
    ensures r.Err? <==> exists i :: 0 <= i < |raw| && raw[i].None?
    ensures r.Err? ==> r.error == AttributeError
    ensures r.Ok? ==> |r.value| == |raw|
    ensures r.Ok? ==> forall i :: 0 <= i < |raw| ==> raw[i].Some? && r.value[i] == RemoveCR(raw[i].value)
    decreases |raw|
  {
    if raw == [] then Ok([])
    else if raw[0].None? then Err(AttributeError)
    else
      match StripEach(raw[1..])
      case Err(e) => Err(e)
      case Ok(rest) =>
        var r := [RemoveCR(raw[0].value)] + rest;
        assert forall i :: 1 <= i < |raw| ==> raw[i] == raw[1..][i - 1] && r[i] == rest[i - 1];
        Ok(r)
  }

  /**
   * The widget's `value_from_datadict`: collect `name` and then `name_1` ...
   * `name_9` until one is missing, then strip `\r` from each.
   */
  method ValueFromDatadict(data: FormData, name: string) returns (r: Result<seq<string>, PyError>)
    ensures r == ReadPluralForms(data, name)
  {
    var raw: seq<Option<string>> := [if name in data then Some(data[name]) else None];
    var idx := 1;
    while idx < 10
      invariant 1 <= idx <= 10 && |raw| == idx
      invariant raw[0] == (if name in data then Some(data[name]) else None)
      invariant forall i :: 1 <= i < idx ==> FieldName(name, i) in data && raw[i] == Some(data[FieldName(name, i)])
    {
      var fieldName := FieldName(name, idx);
      if fieldName !in data {
        break;
      }
      raw := raw + [Some(data[fieldName])];
      idx := idx + 1;
    }
    assert |raw| < 10 ==> FieldName(name, |raw|) !in data;
    var converted := StripEach(raw);
    if converted.Err? {
      r := converted;
      return;
    }
    var stripped := converted.value;
    if |stripped| == 0 {
      // the branch that returns `ret[0]` cannot be taken: the list holds `name`'s value
      assert false;
    }
    r := Ok(stripped);
    CollectedIsReadBack(data, name, raw, stripped);
  }

  /** What the two loops of `value_from_datadict` collect is the read-back of `name`. */
  lemma CollectedIsReadBack(data: FormData, name: string, raw: seq<Option<string>>, stripped: seq<string>)
    requires 1 <= |raw| <= 10 && |stripped| == |raw|
    requires raw[0] == (if name in data then Some(data[name]) else None)
    requires forall i :: 1 <= i < |raw| ==> FieldName(name, i) in data && raw[i] == Some(data[FieldName(name, i)])
    requires |raw| < 10 ==> FieldName(name, |raw|) !in data
    requires forall i :: 0 <= i < |raw| ==> raw[i].Some? && stripped[i] == RemoveCR(raw[i].value)
    ensures ReadPluralForms(data, name) == Ok(stripped)
  {
    assert FieldName(name, 0) == name;
    assert IsReadBack(data, name, stripped);
    ReadBackUnique(data, name, stripped, ReadPluralForms(data, name).value);
  }

  // ---------------------------------------------------------------------------
  // The round trip between rendering and reading back

  /** The form data a browser posts for textareas named by `FieldName(name, 0..|values|)`. */
  function PostedForm(name: string, values: seq<string>): (data: FormData)
    ensures forall i :: 0 <= i < |values| ==> FieldName(name, i) in data && data[FieldName(name, i)] == values[i]
    ensures forall j :: j >= |values| ==> FieldName(name, j) !in data
    ensures data.Keys == set i | 0 <= i < |values| :: FieldName(name, i)
    decreases |values|
  {
    if values == [] then map[]
    else
      var last := |values| - 1;
      var prev := PostedForm(name, values[..last]);
      forall i | 0 <= i < last
        ensures FieldName(name, i) != FieldName(name, last) && values[..last][i] == values[i]
      {
        if FieldName(name, i) == FieldName(name, last) {
          FieldNamesDistinct(name, i, last);
        }
      }
      forall j | j >= |values|
        ensures FieldName(name, j) != FieldName(name, last)
      {
        if FieldName(name, j) == FieldName(name, last) {
          FieldNamesDistinct(name, j, last);
        }
      }
      prev[FieldName(name, last) := values[last]]
  }

  /** Every posted value with its `\r` removed. */
  function StripAll(values: seq<string>): (r: seq<string>)
    ensures |r| == |values|
    ensures forall i :: 0 <= i < |values| ==> r[i] == RemoveCR(values[i])
  {
    seq(|values|, i requires 0 <= i < |values| => RemoveCR(values[i]))
  }

  /**
   * Posting what the widget rendered for one to ten plural forms gives back
   * exactly those values, each without `\r`; with the browser's CR LF
   * normalisation, the original text.
   */
  lemma PostedFormReadBack(name: string, values: seq<string>)
    requires 1 <= |values| <= 10
    ensures ReadPluralForms(PostedForm(name, values), name) == Ok(StripAll(values))
  {
    var data := PostedForm(name, values);
    assert FieldName(name, 0) == name;
    assert IsReadBack(data, name, StripAll(values));
    ReadBackUnique(data, name, StripAll(values), ReadPluralForms(data, name).value);
  }

  /** What a browser submits for the texts typed into the textareas. */
  function Submitted(typed: seq<string>): (r: seq<string>)
    ensures |r| == |typed|
    ensures forall i :: 0 <= i < |typed| ==> r[i] == ToCrlf(typed[i])
  {
    seq(|typed|, i requires 0 <= i < |typed| => ToCrlf(typed[i]))
  }

  /** Text typed into the textareas survives the browser's submission and the read-back. */
  lemma TypedTextReadBack(name: string, typed: seq<string>)
    requires 1 <= |typed| <= 10
    requires forall i :: 0 <= i < |typed| ==> '\r' !in typed[i]
    ensures ReadPluralForms(PostedForm(name, Submitted(typed)), name) == Ok(typed)
  {
    var posted := Submitted(typed);
    PostedFormReadBack(name, posted);
    forall i | 0 <= i < |typed|
      ensures StripAll(posted)[i] == typed[i]
    {
      RemoveCRUndoesCrlf(typed[i]);
    }
    assert StripAll(posted) == typed;
  }

  // ---------------------------------------------------------------------------
  // render

  /** What the widget needs from Django: the plain textarea's rendering and gettext. */
  datatype Widgets = Widgets(
    textarea: (string, string, map<string, string>) -> string,
    gettext: string -> string)

  /** The language of the translation: its label for each plural form and its plural equation. */
  datatype Language = Language(pluralLabel: nat -> string, pluralEquation: string)

  const BR := "<br />"
  const EQUATION_HELP := "This equation is used to identify which plural form will be used based on given count (n)."

  /** The id of the textarea for plural form `idx`: each form appends its own suffix to the previous id. */
  function CumulativeId(id0: string, idx: nat): (r: string)
    ensures |r| >= |id0|
    ensures r[..|id0|] == id0
    decreases idx
  {
    if idx == 0 then id0 else CumulativeId(id0, idx - 1) + "_" + Decimal(idx)
  }

  /** The ids grow strictly, so no two plural forms share a textarea id. */
  lemma {:induction false} CumulativeIdsDistinct(id0: string, i: nat, j: nat)
    requires i < j
    ensures |CumulativeId(id0, i)| < |CumulativeId(id0, j)|
    ensures CumulativeId(id0, j)[..|CumulativeId(id0, i)|] == CumulativeId(id0, i)
    decreases j
  {
    var prev := CumulativeId(id0, j - 1);
    assert CumulativeId(id0, j)[..|prev|] == prev;
    if i < j - 1 {
      CumulativeIdsDistinct(id0, i, j - 1);
      var n := |CumulativeId(id0, i)|;
      assert CumulativeId(id0, j)[..n] == CumulativeId(id0, j)[..|prev|][..n];
    }
  }

  /** The ids the widget gives the first three forms: `id`, `id_1`, `id_1_2`. */
  lemma CumulativeIdExample(id0: string)
    ensures CumulativeId(id0, 1) == id0 + "_1"
    ensures CumulativeId(id0, 2) == id0 + "_1_2"
  {
    assert Decimal(1) == "1" && Decimal(2) == "2";
  }

  /** The attributes in force while plural form `idx` is rendered. */
  function AttrsAt(attrs: map<string, string>, idx: nat): (r: map<string, string>)
    requires "id" in attrs
    ensures "class" in r && r["class"] == "translation"
    ensures "id" in r && r["id"] == CumulativeId(attrs["id"], idx)
  {
    attrs["class" := "translation"]["id" := CumulativeId(attrs["id"], idx)]
  }

  /** Rendering touches only `id` and `class`; every other attribute is passed through. */
  lemma AttrsAtKeepsOthers(attrs: map<string, string>, idx: nat)
    requires "id" in attrs
    ensures AttrsAt(attrs, idx).Keys == attrs.Keys + {"class"}
    ensures forall k :: k in attrs && k != "id" && k != "class" ==> AttrsAt(attrs, idx)[k] == attrs[k]
  {
  }

  /** The first plural form keeps the caller's id. */
  lemma AttrsAtZero(attrs: map<string, string>)
    requires "id" in attrs
    ensures attrs["class" := "translation"] == AttrsAt(attrs, 0)
  {
  }

  /** The attributes of form `idx` are those of form `idx - 1` with the next suffix appended to the id. */
  lemma AttrsAtStep(attrs: map<string, string>, idx: nat)
    requires "id" in attrs && idx > 0
    ensures var prev := AttrsAt(attrs, idx - 1);
      prev["id" := prev["id"] + "_" + Decimal(idx)]["class" := "translation"] == AttrsAt(attrs, idx)
  {
  }

  /** One plural form: a label pointing at the textarea's id, a line break, the textarea. */
  function LabelledTextarea(id: string, labelText: string, textarea: string): string {
    "<label class=\"plural\" for=\"" + id + "\">" + labelText + "</label>" + BR + textarea
  }

  /** The fragment the widget builds for plural form `idx`. */
  function PluralFragment(name: string, lang: Language, values: seq<string>,
                          attrs: map<string, string>, ui: Widgets, idx: nat): string
    requires "id" in attrs && idx < |values|
  {
    var a := AttrsAt(attrs, idx);
    LabelledTextarea(a["id"], lang.pluralLabel(idx), ui.textarea(FieldName(name, idx), EscapeNewline(values[idx]), a))
  }

  function PluralFragments(name: string, lang: Language, values: seq<string>,
                           attrs: map<string, string>, ui: Widgets): (r: seq<string>)
    requires "id" in attrs
    ensures |r| == |values|
  {
    seq(|values|, idx requires 0 <= idx < |values| => PluralFragment(name, lang, values, attrs, ui, idx))
  }

  /** The fragments of the first `n` plural forms, in the order the loop appends them. */
  function FragmentsUpTo(name: string, lang: Language, values: seq<string>,
                         attrs: map<string, string>, ui: Widgets, n: nat): seq<string>
    requires "id" in attrs && n <= |values|
  {
    if n == 0 then [] else FragmentsUpTo(name, lang, values, attrs, ui, n - 1) + [PluralFragment(name, lang, values, attrs, ui, n - 1)]
  }

  lemma {:induction false} FragmentsUpToAll(name: string, lang: Language, values: seq<string>,
                                            attrs: map<string, string>, ui: Widgets, n: nat)
    requires "id" in attrs && n <= |values|
    ensures FragmentsUpTo(name, lang, values, attrs, ui, n) == PluralFragments(name, lang, values, attrs, ui)[..n]
  {
    if n > 0 {
      FragmentsUpToAll(name, lang, values, attrs, ui, n - 1);
      var all := PluralFragments(name, lang, values, attrs, ui);
      assert all[..n] == all[..n - 1] + [all[n - 1]];
    }
  }

  /** Python's `sep.join(parts)`. */
  function Join(sep: string, parts: seq<string>): (r: string)
    ensures |parts| == 1 ==> r == parts[0]
    decreases |parts|
  {
    if parts == [] then "" else if |parts| == 1 then parts[0] else parts[0] + sep + Join(sep, parts[1..])
  }

  /** The span after the plural forms explaining the language's plural equation. */
  function PluralMessage(lang: Language, ui: Widgets): string {
    BR + "<span class=\"plural\"><abbr title=\"" + ui.gettext(EQUATION_HELP) + "\">"
      + ui.gettext("Plural equation") + "</abbr>: " + lang.pluralEquation + "</span>"
  }

  /** The index of the first empty value, or the number of values when none is empty. */
  function FirstEmpty(values: seq<string>): (r: nat)
    ensures r <= |values|
    ensures forall i :: 0 <= i < r ==> values[i] != []
    ensures r < |values| ==> values[r] == []
    decreases |values|
  {
    if values == [] then 0
    else if values[0] == [] then 0
    else 1 + FirstEmpty(values[1..])
  }

  /**
   * What `render` as written returns and what it leaves in `attrs`. Every
   * value goes through `escape_newline` as written, so the first empty value
   * raises IndexError, after the attributes of its own form are set. Without
   * an `id`, the first label raises KeyError, unless the first value already
   * raised.
   */
  function RenderOutcome(name: string, lang: Language, values: seq<string>,
                         attrs: map<string, string>, ui: Widgets): (Result<string, PyError>, map<string, string>)
  {
    if |values| == 1 then
      var a := attrs["class" := "translation"];
      if values[0] == [] then (Err(IndexError), a)
      else (Ok(ui.textarea(name, EscapeNewline(values[0]), a)), a)
    else if values == [] then
      (Ok(Join(BR, []) + PluralMessage(lang, ui)), attrs)
    else if FirstEmpty(values) == 0 then
      // plural form 0 sets the class, then escaping its empty value raises
      (Err(IndexError), attrs["class" := "translation"])
    else if "id" !in attrs then
      // plural form 0 sets the class, then its label reads the missing id
      (Err(KeyError("id")), attrs["class" := "translation"])
    else if FirstEmpty(values) < |values| then
      (Err(IndexError), AttrsAt(attrs, FirstEmpty(values)))
    else
      (Ok(Join(BR, PluralFragments(name, lang, values, attrs, ui)) + PluralMessage(lang, ui)),
       AttrsAt(attrs, |values| - 1))
  }

  /**
   * `render` with the corrected `escape_newline`: an empty value renders as
   * an empty textarea, and only a missing `id` can make it raise.
   */
  function RenderOutcomeCorrected(name: string, lang: Language, values: seq<string>,
                                  attrs: map<string, string>, ui: Widgets): (r: (Result<string, PyError>, map<string, string>))
    ensures r.0.Err? ==> |values| >= 2 && "id" !in attrs && r.0.error == KeyError("id")
  {
    if |values| == 1 then
      var a := attrs["class" := "translation"];
      (Ok(ui.textarea(name, EscapeNewline(values[0]), a)), a)
    else if values == [] then
      (Ok(Join(BR, []) + PluralMessage(lang, ui)), attrs)
    else if "id" !in attrs then
      (Err(KeyError("id")), attrs["class" := "translation"])
    else
      (Ok(Join(BR, PluralFragments(name, lang, values, attrs, ui)) + PluralMessage(lang, ui)),
       AttrsAt(attrs, |values| - 1))
  }

  /**
   * An untranslated plural form makes `render` as written raise IndexError,
   * where the corrected widget renders it; the attributes are left as they
   * were set for the form that raised.
   */
  lemma RenderRaisesOnEmptyValue(name: string, lang: Language, values: seq<string>,
                                 attrs: map<string, string>, ui: Widgets, k: nat)
    requires k < |values| && values[k] == [] && "id" in attrs
    ensures FirstEmpty(values) <= k
    ensures RenderOutcome(name, lang, values, attrs, ui)
            == (Err(IndexError), AttrsAt(attrs, if |values| == 1 then 0 else FirstEmpty(values)))
    ensures RenderOutcomeCorrected(name, lang, values, attrs, ui).0.Ok?
  {
    var first := FirstEmpty(values);
    assert first <= k;
    if |values| == 1 || first == 0 {
      AttrsAtZero(attrs);
    }
  }

  /**
   * The two differ only through the IndexError: when no value is empty they
   * agree on the output and the attributes, and wherever their outputs differ
   * the as-written one raised IndexError.
   */
  lemma RenderAgreesWithoutEmptyValues(name: string, lang: Language, values: seq<string>,
                                       attrs: map<string, string>, ui: Widgets)
    ensures (forall i :: 0 <= i < |values| ==> values[i] != []) ==>
      RenderOutcome(name, lang, values, attrs, ui) == RenderOutcomeCorrected(name, lang, values, attrs, ui)
    ensures RenderOutcome(name, lang, values, attrs, ui).0 != RenderOutcomeCorrected(name, lang, values, attrs, ui).0 ==>
      RenderOutcome(name, lang, values, attrs, ui).0 == Err(IndexError)
  {
  }

  /**
   * A single value is one textarea and nothing else: no label, no plural
   * equation, and the value keeps its leading line feed in the browser.
   */
  lemma SingleValueIsOneTextarea(name: string, lang: Language, value: string,
                                 attrs: map<string, string>, ui: Widgets)
    requires value != []
    ensures var (r, after) := RenderOutcome(name, lang, [value], attrs, ui);
      && r.Ok? && after == attrs["class" := "translation"]
      && r.value == ui.textarea(name, EscapeNewline(value), after)
      && DropLeadingNewline(EscapeNewline(value)) == value
  {
  }

  /**
   * Several non-empty values: one labelled textarea per value, in order,
   * named exactly by the keys the read-back consults, each label pointing at
   * its own textarea's cumulative id.
   */
  lemma PluralFormsLabelled(name: string, lang: Language, values: seq<string>,
                            attrs: map<string, string>, ui: Widgets)
    requires |values| >= 2 && "id" in attrs
    requires forall k :: 0 <= k < |values| ==> values[k] != []
    ensures var (r, after) := RenderOutcome(name, lang, values, attrs, ui);
      var parts := PluralFragments(name, lang, values, attrs, ui);
      && r == Ok(Join(BR, parts) + PluralMessage(lang, ui))
      && (forall i :: 0 <= i < |values| ==>
            parts[i] == LabelledTextarea(CumulativeId(attrs["id"], i), lang.pluralLabel(i),
                                         ui.textarea(FieldName(name, i), EscapeNewline(values[i]), AttrsAt(attrs, i))))
      && after["id"] == CumulativeId(attrs["id"], |values| - 1) && after["class"] == "translation"
  {
    assert FirstEmpty(values) == |values|;
    var parts := PluralFragments(name, lang, values, attrs, ui);
    forall i | 0 <= i < |values|
      ensures parts[i] == LabelledTextarea(CumulativeId(attrs["id"], i), lang.pluralLabel(i),
                                           ui.textarea(FieldName(name, i), EscapeNewline(values[i]), AttrsAt(attrs, i)))
    {
      FragmentAt(name, lang, values, attrs, ui, i, AttrsAt(attrs, i));
    }
  }

  /**
   * No two plural forms share a field name or a textarea id, so every label
   * points at its own textarea.
   */
  lemma PluralFormsDistinct(name: string, id0: string, n: nat)
    ensures forall i, j :: 0 <= i < j < n ==>
      CumulativeId(id0, i) != CumulativeId(id0, j) && FieldName(name, i) != FieldName(name, j)
  {
    forall i, j | 0 <= i < j < n
      ensures CumulativeId(id0, i) != CumulativeId(id0, j)
      ensures FieldName(name, i) != FieldName(name, j)
    {
      CumulativeIdsDistinct(id0, i, j);
      if FieldName(name, i) == FieldName(name, j) {
        FieldNamesDistinct(name, i, j);
      }
    }
  }

  /**
   * The joined fragments hold every plural form in order, with a line break
   * between consecutive ones.
   */
  lemma {:induction false} JoinKeepsParts(sep: string, parts: seq<string>)
    requires |parts| >= 2
    ensures Join(sep, parts) == parts[0] + sep + Join(sep, parts[1..])
    ensures Join(sep, parts) == Join(sep, parts[..|parts| - 1]) + sep + parts[|parts| - 1]
    decreases |parts|
  {
    if |parts| > 2 {
      JoinKeepsParts(sep, parts[1..]);
      assert parts[1..][..|parts[1..]| - 1] == parts[..|parts| - 1][1..];
      assert parts[1..][|parts[1..]| - 1] == parts[|parts| - 1];
    } else {
      assert parts[..1] == [parts[0]] && parts[1..] == [parts[1]];
    }
  }

  /** The fragment for form `idx`, built from the attributes in force at that point. */
  lemma FragmentAt(name: string, lang: Language, values: seq<string>, attrs: map<string, string>,
                   ui: Widgets, idx: nat, items: map<string, string>)
    requires "id" in attrs && idx < |values| && items == AttrsAt(attrs, idx)
    ensures LabelledTextarea(items["id"], lang.pluralLabel(idx),
                             ui.textarea(FieldName(name, idx), EscapeNewline(values[idx]), items))
            == PluralFragment(name, lang, values, attrs, ui, idx)
  {
  }

  /** The attributes dictionary the caller hands in and the widget updates in place. */
  class AttrDict {
    var items: map<string, string>

    constructor (items: map<string, string>)
      ensures this.items == items
    {
      this.items := items;
    }
  }

  /**
   * The widget's `render`: one textarea for a single value, otherwise a
   * labelled textarea per plural form with cumulative ids and the plural
   * equation after them. `attrs` is updated in place.
   */
  method Render(name: string, lang: Language, values: seq<string>, attrs: AttrDict, ui: Widgets)
    returns (r: Result<string, PyError>)
    modifies attrs
    ensures (r, attrs.items) == RenderOutcome(name, lang, values, old(attrs.items), ui)
  {
    if |values| == 1 {
      attrs.items := attrs.items["class" := "translation"];
      var escaped := EscapeNewlineAsWritten(values[0]);
      if escaped.Err? {
        r := Err(escaped.error);
        return;
      }
      r := Ok(ui.textarea(name, escaped.value, attrs.items));
      return;
    }
    ghost var attrs0 := attrs.items;
    var ret: seq<string> := [];
    var idx := 0;
    while idx < |values|
      invariant 0 <= idx <= FirstEmpty(values) && |ret| == idx
      invariant idx > 0 ==> "id" in attrs0 && attrs.items == AttrsAt(attrs0, idx - 1)
      invariant idx == 0 ==> attrs.items == attrs0
      invariant "id" in attrs0 ==> ret == FragmentsUpTo(name, lang, values, attrs0, ui, idx)
    {
      var fieldName := FieldName(name, idx);
      if idx > 0 {
        attrs.items := attrs.items["id" := attrs.items["id"] + "_" + Decimal(idx)];
      }
      attrs.items := attrs.items["class" := "translation"];
      if idx > 0 {
        AttrsAtStep(attrs0, idx);
        assert attrs.items == AttrsAt(attrs0, idx);
      }
      var escaped := EscapeNewlineAsWritten(values[idx]);
      if escaped.Err? {
        r := Err(escaped.error);
        return;
      }
      var textarea := ui.textarea(fieldName, escaped.value, attrs.items);
      var labelText := lang.pluralLabel(idx);
      if "id" !in attrs.items {
        r := Err(KeyError("id"));
        return;
      }
      if idx == 0 {
        AttrsAtZero(attrs0);
      }
      var fragment := LabelledTextarea(attrs.items["id"], labelText, textarea);
      FragmentAt(name, lang, values, attrs0, ui, idx, attrs.items);
      ret := ret + [fragment];
      idx := idx + 1;
    }
    var pluralMsg := PluralMessage(lang, ui);
    if |values| >= 2 {
      FragmentsUpToAll(name, lang, values, attrs0, ui, |values|);
      assert ret == PluralFragments(name, lang, values, attrs0, ui);
    }
    r := Ok(Join(BR, ret) + pluralMsg);
  }
}
