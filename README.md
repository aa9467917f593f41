# htmx-types attribute builder in Dafny

This project models the attribute-string builder of the `htmx-types` Rust crate. The crate turns typed descriptors into one string of htmx attributes: a request (`hx-get`, `hx-post`, `hx-put`, `hx-delete` with a URI), trigger lists (`hx-trigger`), targets (`hx-target`), extensions (`hx-ext`) and raw attributes. The model proves properties of each part.

Modules, following the crate's structure:

- `Errors` (`errors.dfy`): the two-case error type `EmptyAttrs | InvalidUri(diag)`.
- `Uri` (`uri.dfy`): the URI parser the crate calls (`http::Uri::try_from`). It is a function parameter `validate: string -> Verdict`. Only its accept/reject outcome and its diagnostic matter.
- `Text` (`text.dfy`): `Join`, and `Trim` as Rust's `str::trim` does it. The whitespace set is Unicode's White_Space property, the set `char::is_whitespace` uses.
- `Attributes` (`attributes.dfy`): the variant datatypes (`HtmxTrigger`, `HtmxTarget`, `HtmxExt`, `HtmxRequest`, `HtmxAttr`) and their fallible conversions to text. These are pure functions, like the `match`/`format!` code they model. The trigger-list conversion is modelled as written: a fold that appends `s,` for each trigger, then a `pop`. A lemma proves this equals `hx-trigger=` followed by the comma-join.
- `Builder` (`builder.dfy`): the pure specification `Serialize` of the terminal conversion, and the class `HtmxAttrs`. The class holds the attribute list as a `seq` field, and its mutators append to it. `TryIntoString` is the `try_into` loop, with early exit on error. It is proved equal to `Serialize`.
- `AttributeTests` (`tests.dfy`): the crate's `hx_get` test and a few other client uses of the builder. Each is proved from the class contracts.

Places where the code's behaviour might surprise a reader; the model follows the code:

- `HtmxAttrs` derives `Default`, so a collection with no request, or with no attributes at all, can be built through the public API. It is modelled as the `Default` constructor. `Seeded` is the shape that only the four verb constructors guarantee.
- When the trigger list is empty, the final `pop` removes the `=`, so the token is the bare `hx-trigger`.
- The final `trim` applies to the whole joined string. It can therefore remove whitespace that belongs to the first or last token, for example the end of a raw attribute.

Functions are deterministic, so serializing the same collection twice gives the same result. No lemma is needed for that.

## Model

| member | source | states |
|---|---|---|
| `Attributes.NewTrigger` | src/attributes.rs:8-10 | the trigger has the given event name and no modifier |
| `Attributes.TriggerFrom` | src/attributes.rs:106-110 | a bare string converts to a trigger with that event name and no modifier |
| `Attributes.WithModifier` | src/attributes.rs:11-14 | the event is unchanged and the modifier becomes the given one |
| `Attributes.ModifierOverwrites` | src/attributes.rs:11-14 | setting a modifier twice keeps only the second |
| `Attributes.TriggerString` | src/attributes.rs:33-43 | never fails; gives the event name exactly when there is no modifier, else `event + " " + modifier` |
| `Attributes.TriggerStringInjective` | src/attributes.rs:33-43 | if event names contain no space, equal trigger strings mean equal triggers |
| `Attributes.IntoTriggers` | src/attributes.rs:171 | bare names become modifier-less triggers, one per name, in order |
| `Attributes.TriggerStrings` | src/attributes.rs:76-77 | one string per trigger, in list order, each that trigger's successful conversion |
| `Attributes.CollectTriggerStrings` | src/attributes.rs:76-77 | the early-exit collect of the trigger conversions always succeeds, with the strings in list order |
| `Attributes.Pop` | src/attributes.rs:84 | removes exactly the last character of a non-empty string; leaves an empty string empty |
| `Attributes.FoldWithCommas` | src/attributes.rs:79-83 | the fold as written: the result begins with the accumulator and equals it exactly when there is nothing to fold; `FoldIsJoin` gives its full value |
| `Attributes.FoldIsJoin` | src/attributes.rs:79-83 | folding a non-empty list gives the prefix, the comma-join, and one trailing comma |
| `Attributes.TriggerListString` | src/attributes.rs:75-87 | never fails; `hx-trigger=` plus the comma-join of the trigger strings in order (no trailing comma), or `hx-trigger` for an empty list |
| `Attributes.TargetString` | src/attributes.rs:45-51 | never fails; `hx-target=` followed by the selector, which can be read back unchanged |
| `Attributes.ExtString` | src/attributes.rs:62-67 | never fails; `hx-ext=` followed by the name, which can be read back unchanged |
| `Attributes.RequestTypeString` | src/attributes.rs:119-129 | every verb name starts with `hx-` and contains no `=` |
| `Attributes.RequestTypeStringInjective` | src/attributes.rs:119-129 | the verb-to-name map is one-to-one |
| `Attributes.RequestString` | src/attributes.rs:53-60 | succeeds exactly when the URI is accepted, giving `name=uri` with the URI unmodified; otherwise `InvalidUri` with the parser's diagnostic |
| `Attributes.RequestStringInjective` | src/attributes.rs:53-60 | two requests that serialize to the same string have the same verb and URI |
| `Attributes.AttrString` | src/attributes.rs:69-93 | only a request with a rejected URI fails; target and extension get their prefixes; a raw attribute comes back unchanged |
| `Text.JoinSnoc` | src/attributes.rs:196 | appending one token after a separator extends the join by that separator and token |
| `Text.TrimStart` | src/attributes.rs:199 | the result is a suffix, everything removed is whitespace, and it does not start with whitespace |
| `Text.TrimEnd` | src/attributes.rs:199 | the result is a prefix, everything removed is whitespace, and it does not end with whitespace |
| `Text.Trim` | src/attributes.rs:199 | a slice of the input with neither end whitespace; everything dropped at either end is whitespace; empty exactly when the input is all whitespace |
| `Text.TrimOfJoin` | src/attributes.rs:196-199 | trimming a join whose ends are not whitespace changes nothing |
| `Text.TrimIdempotent` | src/attributes.rs:199 | trimming twice is the same as trimming once |
| `Builder.CollectAttrStrings` | src/attributes.rs:192-197 | succeeds exactly when every attribute converts, giving their strings in order; otherwise the error of the first attribute that fails |
| `Builder.CollectConverted` | src/attributes.rs:192-197 | when each attribute converts to the matching string, the collect gives exactly those strings |
| `Builder.Serialize` | src/attributes.rs:189-203 | the terminal conversion as a pure function: `EmptyAttrs` exactly for an empty collection; `SerializePrecedence` states its other outcomes |
| `Builder.SerializePrecedence` | src/attributes.rs:189-203 | `EmptyAttrs` exactly for an empty collection, otherwise the first attribute error, otherwise the trimmed space-join of all attribute strings |
| `Builder.SerializeConverted` | src/attributes.rs:189-203 | a non-empty collection whose attributes convert serializes to the trimmed space-join of their strings |
| `Builder.SeededFailsIffInvalidUri` | src/attributes.rs:132-156 | a collection built from `get`/`post`/`put`/`delete` fails exactly when the seeding URI is rejected, and then with that rejection |
| `Builder.SeededOutputStartsWithRequest` | src/attributes.rs:192-199 | an accepted seeded collection's output starts with `name=uri` |
| `Builder.HtmxAttrs.Default` | src/attributes.rs:95-98 | the derived default collection is empty |
| `Builder.HtmxAttrs.Get` | src/attributes.rs:132-137 | exactly one `Get` request with the URI as given, unchecked |
| `Builder.HtmxAttrs.Post` | src/attributes.rs:138-143 | exactly one `Post` request with the URI as given, unchecked |
| `Builder.HtmxAttrs.Put` | src/attributes.rs:144-149 | exactly one `Put` request with the URI as given, unchecked |
| `Builder.HtmxAttrs.Delete` | src/attributes.rs:151-156 | exactly one `Delete` request with the URI as given, unchecked |
| `Builder.HtmxAttrs.Target` | src/attributes.rs:158-163 | appends one target at the end; earlier attributes unchanged; seeded shape kept |
| `Builder.HtmxAttrs.Extension` | src/attributes.rs:164-169 | appends one extension at the end; earlier attributes unchanged; seeded shape kept |
| `Builder.HtmxAttrs.Triggers` | src/attributes.rs:170-175 | appends one trigger list holding all the given triggers in order; seeded shape kept |
| `Builder.HtmxAttrs.Trigger` | src/attributes.rs:176-181 | appends one trigger list holding just the given trigger; seeded shape kept |
| `Builder.HtmxAttrs.Misc` | src/attributes.rs:182-186 | appends one raw attribute, verbatim; seeded shape kept |
| `Builder.HtmxAttrs.TryIntoString` | src/attributes.rs:189-203 | the loop with early exit computes exactly `Serialize` of the collection |
| `AttributeTests.HxGet` | src/attributes.rs:209-216 | `get("/htmxdemo").target("#repo").triggers(["change","load"])` gives exactly `hx-get=/htmxdemo hx-target=#repo hx-trigger=change,load` |
| `AttributeTests.RepeatedTargetsAndMisc` | src/attributes.rs:158-186 | two targets remain two tokens in call order; a raw attribute appears verbatim without a prefix |
| `AttributeTests.RejectedUri` | src/attributes.rs:57 | a rejected URI fails the whole conversion with `InvalidUri`, whatever is appended after it |
| `AttributeTests.EmptyTriggerList` | src/attributes.rs:84 | an empty trigger list serializes as the bare `hx-trigger` |
| `AttributeTests.DefaultIsEmpty` | src/attributes.rs:193 | the default collection fails with `EmptyAttrs` |

## Left out

- URI syntax: `http::Uri::try_from` comes from another crate. It is the `validate` parameter, and the model does not say which strings it accepts.
- Error messages: the `thiserror` derive and its display strings are formatting only. Only the two error cases are kept.
- Ownership: the mutators take `self` by value and return the collection; the model's methods change the object in place instead. The terminal conversion consumes the collection in Rust but leaves it readable in the model. Neither difference changes any string the crate produces.
- Generic inputs: the `impl ToString`, `AsRef<str>`, `IntoIterator` and `Into<HtmxTrigger>` arguments are modelled as `string`, `seq<HtmxTrigger>` or `HtmxTrigger`. A string argument to `trigger` or `triggers` goes through `TriggerFrom` or `IntoTriggers`.
- `HtmxEvent` and `HtmxModifier`: the `events` module is not part of this model. Both are modelled as plain wrappers around a string, which is how src/attributes.rs uses them.
- `From<HtmxRequest> for HtmxAttr` (src/attributes.rs:100-104) is the `Request` datatype constructor and needs no member of its own.
- src/lib.rs only re-exports names and is not modelled.
- Builder.SeededOutputStartsWithRequest: this lemma requires that the URI not end in whitespace. Otherwise the final trim could cut the end of the URI when it is the output's last token. Nothing is known about which URIs the parser accepts, so the case cannot be excluded otherwise.
