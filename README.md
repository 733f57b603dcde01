# Push notification negotiation and the plural translation widget

This project models two small pieces of a chat/translation code base in Dafny and proves
properties about them.

**XEP-0357 push notifications** (`spec/push.js`). The client registers a push app server
for the user's own account, or for a group-chat service domain. Three files cover it:

- `push_stanza.dfy`, module `PushStanza`, holds the request itself.
  - It builds the `<iq type="set">` stanza. The stanza holds an `enable` element (with an
    optional XEP-0004 publish-options form carrying the secret) or a `disable` element.
  - It serialises the stanza the way `outerHTML` prints it.
  - It proves that the text equals a template spelled like the expected strings, for
    every jid, node, secret, domain and id.
  - It proves that a decoder reads the whole request back out of the tree.
- `push_negotiation.dfy`, module `PushNegotiation`, holds the negotiation.
  - It is a state machine driven by a sequence of events: a disco#info answer arrives,
    or an IQ answer arrives.
  - A class `PushClient` keeps the connection's IQ log and the session's `push_enabled`,
    and updates them in place.
  - The trace lemmas prove the ordering of disco confirmations before the request. They
    prove that at most one request is sent. They prove that `push_enabled` changes only
    on a `result` whose id is the id of the request sent.
  - The progress lemmas prove the converse. The two confirmations in order send the
    request, and a `result` with its id enables push, with any other events before,
    between and after them.

**The plural translation textarea** (`trans/forms.py`). `plural_forms.dfy`, module
`TransForms`, models four things:

- `escape_newline`;
- the loop of `value_from_datadict` that reads `name`, `name_1` … `name_9`;
- the rendering loop of `PluralTextarea.render` as written, which names the fields, builds
  cumulative ids in the caller's `attrs` dict, labels each textarea and raises IndexError at
  the first empty value; the widget with the corrected `escape_newline` is modelled beside it;
- the round trip between them: a form posted for the rendered field names reads back the
  values.

`results.dfy` holds the shared `Option` and `Result` types.

## Model

| member | source | states |
|---|---|---|
| PushStanza.StanzaMatchesExpected | spec/push.js:46-50 | The built stanza serialises to `<iq type="set" xmlns="jabber:client"` + an optional `to` + ` id="…">` + the command + `</iq>`. This holds for every configuration, scope and id. |
| PushStanza.CommandTextMatches | spec/push.js:132-136 | The command is `<disable …/>` for a server configured with `disable`. Otherwise it is `<enable …/>`, or `<enable …>` with the form when there is a secret. Its attributes are `xmlns`, `jid`, `node` in that order, from the configuration. |
| PushStanza.EnableWithFormText | spec/push.js:183-188 | With a secret, `enable` is not self-closing and holds exactly the publish-options form. |
| PushStanza.FormText | spec/push.js:184-187 | The form is `<x xmlns="jabber:x:data" type="submit">`. It holds the FORM_TYPE field first, then the `secret` field. |
| PushStanza.FormFieldText | spec/push.js:185-186 | A form field prints as `<field var="k"><value>v</value></field>`, with the value verbatim. |
| PushStanza.IqTextMatches | spec/push.js:87-88 | The IQ's attributes print in the order `type`, `xmlns`, the optional `to`, then `id`. |
| PushStanza.IqAttrsText | spec/push.js:47 | The IQ attribute text carries the `to` only for a group-chat domain. |
| PushStanza.GroupChatInsertsTo | spec/push.js:87-91 | The group-chat stanza equals the account stanza with ` to="<domain>"` inserted right after `xmlns`. Nothing else differs. |
| PushStanza.Attribute | spec/push.js:54 | An attribute lookup finds a value exactly when some attribute has that name. The value found is the first such attribute's. |
| PushStanza.AttributeAt | spec/push.js:54 | The first attribute with the name decides the lookup. |
| PushStanza.DecodeInvertsPushIq | spec/push.js:51-55 | Decoding the stanza gives back the whole request: jid, node, enable versus disable, the secret of an enable, the scope and the id that the `result` must echo. |
| PushStanza.DecodeCommandInverts | spec/push.js:48 | Decoding the command gives back the configuration as sent. A `disable` carries no secret. |
| PushStanza.FormSecretInverts | spec/push.js:184-187 | The secret is read back verbatim from the form. |
| PushStanza.CommandAttrsDecoded | spec/push.js:48 | The command's `xmlns`, `jid` and `node` attributes read back as built. |
| PushStanza.IqAttrsDecoded | spec/push.js:88 | The IQ's `type`, `xmlns` and `id` read back as built. A `to` is present exactly for a group-chat domain. |
| PushStanza.AccountAttrsDecoded | spec/push.js:47 | The account-scope IQ has no `to` attribute. |
| PushStanza.GroupChatAttrsDecoded | spec/push.js:88 | The group-chat IQ's `to` is the domain. |
| PushNegotiation.RunConsistent | spec/push.js:24-56 | This is the invariant of every run. Each phase has exactly its history, `push_enabled` is either its earlier value or that value plus the target, and the configuration never changes. |
| PushNegotiation.StanzaOnlyAfterDiscos | spec/push.js:26-45 | At most one request is sent. It is sent only after the target's disco confirmation (account/registered + `urn:xmpp:push:0`). For enable, the app server's confirmation (pubsub/push + `urn:xmpp:push:0`) must also come earlier. |
| PushNegotiation.NoEnableWithoutAppServer | spec/push.js:26-29 | Without the app server's confirmation, no enable request goes out, whatever else arrives. |
| PushNegotiation.PushEnabledOnlyAfterResult | spec/push.js:51-56 | `push_enabled` changes only after a `result` whose id is the sent request's id. It then becomes the earlier list (or none, if unset) with the target appended. |
| PushNegotiation.PushEnabledTruthyIffConfirmed | spec/push.js:24-56 | `push_enabled` is truthy at the end of a run exactly when it was set before or the negotiation is `Confirmed`, that is, a `result` for the request on the wire has been accepted. From the tests' unset start, it stays falsy until then. |
| PushNegotiation.ResultEnablesPush | spec/push.js:51-56 | Once the request with some id is on the wire, a `result` with that id confirms it, whatever came before. `push_enabled` then becomes the earlier list with the target appended, and it stays truthy whatever arrives afterwards. |
| PushNegotiation.DiscosSendRequest | spec/push.js:73-86 | The app server's confirmation at any event, then the target's at any later event, put the request on the wire. With `disable`, the target's confirmation at any event is enough, including the first, as in the disable test. Any other events may come before, between and after, such as the room join of the group-chat test. |
| PushNegotiation.RunMonotone | spec/push.js:24-56 | No event moves a negotiation back through its phases, and the configuration never changes. |
| PushNegotiation.WithTarget | spec/push.js:97 | The list saved on confirmation includes the target, and it keeps every earlier target in its place. |
| PushNegotiation.EnableRun | spec/push.js:74-97 | App-server disco, then target disco, then a matching `result`. The stanza for the target goes out while `push_enabled` is unchanged. The `result` then makes `push_enabled` truthy, and the target (bare JID or domain) is in it. |
| PushNegotiation.DisableRun | spec/push.js:116-142 | With `disable`, only the target's disco is awaited. The `disable` request is then sent while `push_enabled` is unchanged, and its `result` makes `push_enabled` truthy. |
| PushNegotiation.PushClient.constructor | spec/push.js:24 | A fresh client has sent nothing and keeps the session's earlier `push_enabled` (unset, so falsy, in the tests). |
| PushNegotiation.PushClient.OnDiscoInfo | spec/push.js:30-45 | A disco answer updates the IQ log and the phase exactly as one step of the negotiation. |
| PushNegotiation.PushClient.OnIq | spec/push.js:51-56 | An IQ answer updates `push_enabled` and the phase exactly as one step of the negotiation. |
| TransForms.EscapeNewlineAsWritten | trans/forms.py:6-12 | As written, this raises IndexError exactly on the empty string. On every other value it prefixes `\n` exactly when the value starts with `\n`. |
| TransForms.EscapeNewlineAsWrittenRaisesOnEmpty | trans/forms.py:10 | `escape_newline("")` raises, while the corrected function returns `""`. |
| TransForms.EscapeNewline | trans/forms.py:6-12 | This is the corrected function. An HTML parser drops one line feed after `<textarea>`, and after that drop the textarea shows exactly the value. |
| TransForms.UnescapedLosesNewline | trans/forms.py:8-11 | Without the escaping, a value starting with a line feed would lose it. |
| TransForms.FieldNamesDistinct | trans/forms.py:28-32 | The field names `name`, `name_1`, `name_2`, … are pairwise distinct. |
| TransForms.DecimalInjective | trans/forms.py:29 | Different indices print as different `%d` suffixes. |
| TransForms.RemoveCR | trans/forms.py:58 | The result has no `\r`, is no longer than the input, and equals the input when it had no `\r`. |
| TransForms.RemoveCRKeepsOthers | trans/forms.py:58 | Every character other than `\r` is kept, as often as it occurs. |
| TransForms.RemoveCRConcat | trans/forms.py:58 | Removal works piece by piece, so the order of the kept characters is preserved. |
| TransForms.RemoveCRUndoesCrlf | trans/forms.py:58 | Removing `\r` undoes a browser's CR LF line-break normalisation. |
| TransForms.ReadFrom | trans/forms.py:53-57 | It reads the fields from `idx` on, in order, up to index 9. It stops at the first missing one, and no key after the gap is read. |
| TransForms.ReadPluralForms | trans/forms.py:51-61 | It returns AttributeError exactly when `name` is missing. Otherwise it returns 1 to 10 values: the `i`-th is field `i` without `\r`, and the next field is missing unless all ten were read. |
| TransForms.ReadBackUnique | trans/forms.py:53-57 | The data determine the read-back completely, including where it stops. |
| TransForms.StripEach | trans/forms.py:58 | The comprehension raises exactly when a collected value is `None`. Otherwise it strips `\r` from each value, keeping length and order. |
| TransForms.ValueFromDatadict | trans/forms.py:51-61 | The loop with `break` and the comprehension return exactly the read-back. The `len(ret) == 0` branch is unreachable. |
| TransForms.CollectedIsReadBack | trans/forms.py:52-58 | What the loop collects, once stripped, is the read-back of `name`. |
| TransForms.PostedForm | trans/forms.py:26-32 | A posted form's keys are exactly the rendered field names of the first `n` forms, each holding its value, and no later field name is present. |
| TransForms.PostedFormReadBack | trans/forms.py:26-57 | Posting the fields rendered for 1 to 10 values reads back exactly those values, without `\r`. |
| TransForms.TypedTextReadBack | trans/forms.py:58 | Text typed into the textareas comes back unchanged after the browser's CR LF submission. |
| TransForms.CumulativeId | trans/forms.py:30 | Every id extends the caller's id. |
| TransForms.CumulativeIdsDistinct | trans/forms.py:28-30 | The id of a later form strictly extends the id of every earlier one, so no two forms share an id. |
| TransForms.CumulativeIdExample | trans/forms.py:30 | The ids run `id`, `id_1`, `id_1_2`. |
| TransForms.AttrsAt | trans/forms.py:30-34 | While form `idx` renders, `class` is `translation` and `id` is the cumulative id. |
| TransForms.AttrsAtKeepsOthers | trans/forms.py:30-34 | Only `id` and `class` are touched; every other attribute passes through. |
| TransForms.AttrsAtStep | trans/forms.py:30-34 | Form `idx`'s attributes are form `idx-1`'s with `_idx` appended to the id and the class set. |
| TransForms.SingleValueIsOneTextarea | trans/forms.py:21-23 | A single non-empty value yields one textarea with class `translation`, no label and no plural equation. |
| TransForms.PluralFormsLabelled | trans/forms.py:26-49 | Several non-empty values give one labelled textarea per value, joined by `<br />` and followed by the plural-equation span. Every fragment's field name is the one the read-back consults, and its label's `for` is the cumulative id its textarea renders with. Afterwards `attrs` holds the last form's id and the class `translation`. |
| TransForms.PluralFormsDistinct | trans/forms.py:28-40 | No two plural forms share a field name or a textarea id, so every label points at its own textarea. |
| TransForms.FragmentsUpToAll | trans/forms.py:25-41 | The fragments the loop appends, in order, are the per-form fragments. |
| TransForms.JoinKeepsParts | trans/forms.py:49 | Joining puts `<br />` between consecutive fragments. |
| TransForms.FirstEmpty | trans/forms.py:26-37 | This is the first form whose value is empty, where the loop stops. Every earlier value is non-empty. |
| TransForms.RenderRaisesOnEmptyValue | trans/forms.py:21-37 | As written, an empty value makes `render` raise IndexError. The raise comes at the first empty form, after that form's `id` and `class` are set. The corrected widget renders the same input. |
| TransForms.RenderOutcomeCorrected | trans/forms.py:18-49 | With the corrected `escape_newline`, `render` can raise only KeyError, and only for several values without an `id`. |
| TransForms.RenderAgreesWithoutEmptyValues | trans/forms.py:18-49 | When no value is empty, `render` as written and the corrected one agree on the output and on `attrs`. Wherever their outputs differ, the as-written one raised IndexError. |
| TransForms.Render | trans/forms.py:18-49 | The output and the `attrs` dict left behind match `render` as written. There are five cases: one value (IndexError if it is empty, after `class` is set), no value, several values with an empty one (IndexError at the first, after that form's attributes are set), several values without an `id` (KeyError after `class` is set), and several non-empty values. |

## Left out

- The production push plugin is not part of this model. The negotiation is modelled on what the tests pin down.
  - `push_enabled` is unset before any confirmation; the tests check that it is falsy (spec/push.js:24).
  - After a confirmation it is a list of targets. A list fits the group-chat test, which looks the domain up in it (spec/push.js:97).
  - For the own account, the tests ask only that it be truthy, and the model adds the bare JID.
- The target's disco answer is used only after the app server's. One that arrives earlier is ignored rather than remembered, so a run that answers in the other order never sends a request. The tests always answer the app server first (spec/push.js:26-34).
- Asynchrony is left out: promises, `waitUntil` polling, `_dataRecv` injection, the mock disco helpers and the `querySelector` filtering of the IQ log. An abstract sequence of events replaces them.
- The id generator of the connection is outside the model. The id for a request arrives with the disco answer that triggers it.
- The disco#info queries the client sends are not in the modelled IQ log. The log holds only the push requests.
- The tests never exercise these behaviours, and they are not modelled: error IQ answers, timeouts, duplicate-request suppression, teardown, and several configured app servers.
- XML escaping of attribute values and text is not modelled. The serialiser prints values verbatim, as they are in the test data.
- `attrs=None` (the default of `render`) would raise TypeError on the first item assignment. The model takes a dict.
- Django's `Textarea.render`, `ugettext`, `lang.get_plural_label` and `lang.pluralequation` are opaque function values. `mark_safe` and `smart_unicode` are the identity.
- Posted form data is a map from field name to one string. Multiple values per key (`QueryDict`) are not modelled.
- The declarative form classes `PluralField`, `TranslationForm`, `UploadForm` and `SearchForm` (trans/forms.py:63-85) hold field lists with nothing to verify.
- The KeyError at trans/forms.py:30 cannot happen. Without an `id`, line 40 already raises at index 0, so the model's loop updates the id unconditionally.

## Findings

| source | as written | input that shows it | evidently intended | confidence | as-written member | corrected member |
|---|---|---|---|---|---|---|
| trans/forms.py:10 | `value[0]` indexes the string before any length check. The test `len(value[0]) >= 1` is then always true. | `escape_newline("")`: an untranslated message rendered as a single textarea (line 23), or any untranslated plural form (line 37), makes `render` raise IndexError (`TransForms.RenderRaisesOnEmptyValue`) | check the length of the value itself, so that `""` is returned unchanged | medium, not executed | TransForms.EscapeNewlineAsWritten | TransForms.EscapeNewline |
