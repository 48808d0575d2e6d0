# Config core of XIVAuras and ReBuff, modelled in Dafny

XIVAuras and ReBuff are overlay plugins for FFXIV. They keep their settings as a tree of
config objects. They save that tree to disk as JSON, and they share parts of it as
clipboard strings: JSON, then Deflate, then Base64. This project models the code that
holds this together:

- **XIVAuras `ConfigHelpers`** (`config_helpers.dfy`):
  - the serialization binder, which writes the plugin's own types under their bare full
    name and reads them back without loading an assembly;
  - the two legacy-shape JSON converters;
  - the export and import string pipeline;
  - `LoadConfig`, with its fallback to a fresh config and its backup copy.
- **The list pages** (`aura_list.dfy`, `label_list.dfy`):
  - the "Auras" page of XIVAuras and the "Labels" page of ReBuff;
  - each page is a class owning a list that create, import and delete edit in place;
  - the Labels page also has the factory default with its two standard labels.
- **The "Icon" page of ReBuff** (`icon_style.dfy`), with the state updates its drawing code makes:
  - the unit/threshold switch;
  - the icon search;
  - the de-duplicated picker;
  - the pick step.

Shared pieces have their own modules:

- `wrappers.dfy`: `Option` and `Result`.
- `primitives.dfy`: `byte`, `ushort` and `uint` as bounded newtypes.
- `lists.dfy`: `List.Remove`, proved equal to an independent reference definition, and
  LINQ `Distinct`, a streaming pass with a seen set proved to have no duplicates, the
  input's members and their first-occurrence order.
- `number_parsing.dfy`: `ushort.TryParse` with the default integer style, and a round
  trip from the decimal form.

Library calls are parameters of the model. The calls whose exceptions the code catches
yield `None` when they fail: Newtonsoft JSON, Deflate and inflate, `Convert.FromBase64String`,
`Type.GetType` and the clipboard read. `Convert.ToBase64String` and the game-data searches
are total functions.
The file system is a map from paths to text.

Three behaviours of the code worth knowing, all stated by the model:

- **Unregistered type names.** A name outside the binder's table is not refused: it goes
  to `Type.GetType` with the given assembly name, so any type the runtime can load is
  accepted. `BindToType` states exactly that. It fails (`UnknownNameFailsClosed`) only when
  that loader cannot resolve the name.
- **When a backup is made.** A backup is made only when reading or deserializing throws.
  A missing file or a `null` document gives a fresh config and no backup.
- **An existing backup.** An existing `.bak` is never replaced: `File.Copy` is called
  without overwrite, that copy throws, and the exception is swallowed.

## Model

| member | source | states |
|---|---|---|
| ConfigHelpers.XIVAurasSerializationBinder.constructor | XIVAuras/Helpers/ConfigHelpers.cs:277-287 | one pass over `_configTypes` adds every type with a full name to both dictionaries; when the full names are distinct, neither `Dictionary.Add` throws, and the two dictionaries are each other's inverse and agree with `FullName` |
| ConfigHelpers.RegisterIsInverse | XIVAuras/Helpers/ConfigHelpers.cs:274-287 | for any list of types with distinct full names, the registered keys are exactly the listed types that have a full name; each maps to its full name, and back |
| ConfigHelpers.RegisterAddsFreshKeys | XIVAuras/Helpers/ConfigHelpers.cs:281-285 | when the loop reaches a named type, that type and its name are not yet keys, so both `Add` calls succeed |
| ConfigHelpers.XIVAurasSerializationBinder.BindToName | XIVAuras/Helpers/ConfigHelpers.cs:289-301 | a registered type is written with no assembly name under its full name; any other type under its own assembly name and full name |
| ConfigHelpers.XIVAurasSerializationBinder.BindToType | XIVAuras/Helpers/ConfigHelpers.cs:303-313 | a registered full name gives its type whatever the assembly name; any other name (including null) is handed to the loader as `"{typeName}, {assemblyName}"`, and the loader's failure is the result |
| ConfigHelpers.XIVAurasSerializationBinder.BindRoundTrip | XIVAuras/Helpers/ConfigHelpers.cs:289-313 | binding a registered type to its name and that name back to a type gives the same type, for every assembly name the reader supplies |
| ConfigHelpers.XIVAurasSerializationBinder.UnknownNameFailsClosed | XIVAuras/Helpers/ConfigHelpers.cs:303-313 | a name outside the table that the loader cannot resolve is an error, never a registered type substituted for it |
| ConfigHelpers.ComboIdReadJson | XIVAuras/Helpers/ConfigHelpers.cs:158-180 | the converter handles the input itself exactly when the target is `uint[]` and the token is an integer; a non-empty result is the combo-id list of the `uint` read; every failure (throw, null, wrong type, `GetComboIds` throwing) gives an empty array |
| ConfigHelpers.ArrayReadJson | XIVAuras/Helpers/ConfigHelpers.cs:205-226 | ArrayConvertor as written: every target other than `T[]` is delegated; a `T[]` target gives at most one element, and exactly one exactly when the scalar read gives a value of runtime type `T`, which is that element |
| ConfigHelpers.ArrayConvertorDropsArrays | XIVAuras/Helpers/ConfigHelpers.cs:205-226 | as written, a `T[]` target whose scalar read throws (the value is stored as an array) becomes an empty array |
| ConfigHelpers.ArrayReadJsonChecked | XIVAuras/Helpers/ConfigHelpers.cs:205-226 | corrected converter: an array token is delegated to the standard array deserialization; every other token behaves as before |
| ConfigHelpers.ArrayTokenDelegatedOnlyWhenChecked | XIVAuras/Helpers/ConfigHelpers.cs:205-226 | at an array token whose scalar read throws, the converter as written returns an empty array, while the corrected one delegates to the standard array deserialization |
| ConfigHelpers.GetExportString | XIVAuras/Helpers/ConfigHelpers.cs:41-65 | the export string exists exactly when serialization and compression succeed, and it is the Base64 of the compressed JSON |
| ConfigHelpers.GetFromImportString | XIVAuras/Helpers/ConfigHelpers.cs:67-96 | an empty string or undecodable Base64 gives the default; when Base64, inflate and JSON all succeed the result is the JSON reader's value, and only then is a value returned |
| ConfigHelpers.ExportImportRoundTrip | XIVAuras/Helpers/ConfigHelpers.cs:41-96 | when each library stage inverts its partner, importing an export string gives back the exported value |
| ConfigHelpers.LoadConfig | XIVAuras/Helpers/ConfigHelpers.cs:98-130 | the config is the file's deserialized value, or a fresh config; nothing on disk changes unless reading or deserializing throws, in which case the config is fresh and the file is copied to `path + ".bak"` exactly when that backup neither exists nor is unwritable, a failed copy changing nothing; no existing file is altered |
| ConfigHelpers.CorruptFileRecovery | XIVAuras/Helpers/ConfigHelpers.cs:110-127 | a file that fails to deserialize, with no backup yet, gives a fresh config and a `.bak` copy of its text |
| ConfigHelpers.UnreadableFileRecovery | XIVAuras/Helpers/ConfigHelpers.cs:102-127 | a file whose text cannot be read, with no backup yet, gives a fresh config and is still copied to `.bak` |
| ConfigHelpers.FailedBackupChangesNothing | XIVAuras/Helpers/ConfigHelpers.cs:114-126 | when loading throws and the backup copy fails (the `.bak` exists or cannot be created), the failure is swallowed: a fresh config and an unchanged disk |
| ConfigHelpers.LoadConfigFileEffectIdempotent | XIVAuras/Helpers/ConfigHelpers.cs:114-126 | loading a second time leaves the file system and the config as the first load left them: a backup is made at most once |
| Lists.IndexOf | XIVAuras/Config/AuraListConfig.cs:141-144 | the position of the first occurrence, or -1 exactly when the item is absent |
| Lists.Remove | XIVAuras/Config/AuraListConfig.cs:141-144 | `List.Remove`: an absent item changes nothing; otherwise exactly one occurrence goes (the multiset loses one copy) and everything before the first occurrence stays in place |
| Lists.RemoveIsWithoutFirst | ReBuff/Config/LabelListConfig.cs:185-188 | `Remove` equals the reference definition that drops the first match while walking the list |
| Lists.RemoveAfterAppend | XIVAuras/Config/AuraListConfig.cs:141-144 | removing an item that was appended to a list not holding it gives back that list |
| Lists.Distinct | ReBuff/Config/IconStyleConfig.cs:123 | LINQ `Distinct`: no duplicates, the same members as the input, in first-occurrence order |
| Lists.DistinctExceptMembers | ReBuff/Config/IconStyleConfig.cs:123 | the streaming pass with a seen set yields exactly the input's items that were not already seen |
| Lists.DistinctExceptNoDuplicates | ReBuff/Config/IconStyleConfig.cs:123 | the streaming pass yields no item twice |
| Lists.DistinctExceptOrder | ReBuff/Config/IconStyleConfig.cs:123 | the streaming pass keeps the order of first occurrences |
| NumberParsing.TryParseUInt16 | ReBuff/Config/IconStyleConfig.cs:108 | `ushort.TryParse`: for every cut of the text into white space, an optional `+` or `-`, one or more digits and white space, the text is accepted exactly when the digits denote at most 65535 and a minus stands only before zero, and the value is that of the digits; a text with no such cut is refused |
| NumberParsing.TrimStart | ReBuff/Config/IconStyleConfig.cs:108 | the result is a suffix of the text, everything dropped before it is white space, and it does not start with white space |
| NumberParsing.TrimEnd | ReBuff/Config/IconStyleConfig.cs:108 | the result is a prefix of the text, everything dropped after it is white space, and it does not end with white space |
| NumberParsing.FormIsTrimmed | ReBuff/Config/IconStyleConfig.cs:108 | any cut of a text into the integer shape is the one trimming finds: the same digits and the same sign |
| NumberParsing.DecimalStringValue | ReBuff/Config/IconStyleConfig.cs:108 | the decimal form of a number is a non-empty digit string whose value is that number |
| NumberParsing.ParseDecimalString | ReBuff/Config/IconStyleConfig.cs:108 | every `ushort` parses back from its decimal form |
| NumberParsing.ParsePaddedSigned | ReBuff/Config/IconStyleConfig.cs:108 | `" +007 "` parses as 7 |
| NumberParsing.ParseMinusZero | ReBuff/Config/IconStyleConfig.cs:108 | `"-0"` parses as 0 |
| NumberParsing.ParseRejectsOverflow | ReBuff/Config/IconStyleConfig.cs:108 | `"65536"` is refused |
| NumberParsing.ParseRejectsNegative | ReBuff/Config/IconStyleConfig.cs:108 | `"-5"` is refused |
| NumberParsing.ParseRejectsInnerWhite | ReBuff/Config/IconStyleConfig.cs:108 | `"1 2"` is refused |
| NumberParsing.ParseRejectsBareSign | ReBuff/Config/IconStyleConfig.cs:108 | `"+"` is refused |
| AuraList.AuraListItem.constructor | XIVAuras/Config/AuraListConfig.cs:120-122 | a new aura carries the variant and name it was built with |
| AuraList.CreatedVariant | XIVAuras/Config/AuraListConfig.cs:118-124 | the type switch creates the variant it is given, and yields null exactly for the type with no arm |
| AuraList.AuraListConfig.constructor | XIVAuras/Config/AuraListConfig.cs:24-27 | a new page has no auras, an empty input and `Group` selected |
| AuraList.AuraListConfig.CreateAura | XIVAuras/Config/AuraListConfig.cs:114-134 | a non-empty name and a creatable type append exactly one new aura of that variant and name at the end, earlier auras unchanged; otherwise the list is unchanged; the input is cleared either way |
| AuraList.AuraListConfig.DeleteAura | XIVAuras/Config/AuraListConfig.cs:141-144 | the list becomes `Remove` of that aura; the input and selection are unchanged |
| AuraList.AuraListConfig.ImportAura | XIVAuras/Config/AuraListConfig.cs:146-163 | a non-empty string that decodes appends one new aura with the decoded variant and name at the end; an empty string or a failed decode leaves the list; the input is cleared either way |
| AuraList.CreateThenDelete | XIVAuras/Config/AuraListConfig.cs:114-144 | deleting the aura just created restores the list from before |
| LabelList.WidgetLabel.constructor | ReBuff/Config/LabelListConfig.cs:34 | a label built from a name and a text carries them, with default style and no conditions |
| LabelList.WidgetLabel.Named | ReBuff/Config/LabelListConfig.cs:142 | a label built from a name alone carries it, with empty text, default style and no conditions |
| LabelList.WidgetLabel.AddCondition | ReBuff/Config/LabelListConfig.cs:37-42 | the condition is appended at the end of the label's conditions; name, text and style are unchanged |
| LabelList.LabelListConfig.constructor | ReBuff/Config/LabelListConfig.cs:22-25 | a new page has no labels |
| LabelList.LabelListConfig.FromLabels | ReBuff/Config/LabelListConfig.cs:27-30 | a page built from labels holds exactly those labels, in that order |
| LabelList.LabelListConfig.GetDefault | ReBuff/Config/LabelListConfig.cs:32-60 | a new page with two distinct new labels: "Value"/"[value:t]" in the big font with condition Value = 0, then "Stacks"/"[stacks]" in the medium font at (-1, 0), bottom-right anchor and alignment, black text, white outline, with condition MaxStacks <= 1 |
| LabelList.LabelListConfig.AddLabel | ReBuff/Config/LabelListConfig.cs:138-146 | a non-empty name appends one new label of that name at the end, earlier labels unchanged; an empty name leaves the list; the input is cleared either way |
| LabelList.LabelListConfig.ImportLabel | ReBuff/Config/LabelListConfig.cs:148-173 | a failed clipboard read changes nothing, not even the input; otherwise a string that decodes to a label appends that label (name, text, style and conditions) at the end, anything else leaves the list, and the input is cleared |
| LabelList.LabelListConfig.DeleteLabel | ReBuff/Config/LabelListConfig.cs:185-188 | the list becomes `Remove` of that label; the input is unchanged |
| IconStyle.ThresholdRule | ReBuff/Config/IconStyleConfig.cs:198-224 | units 0 to 5 keep the threshold and set a fixed maximum; the static unit 6 sets both to 0; any other unit changes nothing |
| IconStyle.ThresholdRuleTable | ReBuff/Config/IconStyleConfig.cs:202-219 | the maximum is 100 for units 0, 2 and 3, 10000 for 1, 16 for 4 and 600 for 5 |
| IconStyle.ThresholdRuleIdempotent | ReBuff/Config/IconStyleConfig.cs:198-224 | applying the switch twice equals applying it once, so re-running it every frame is harmless |
| IconStyle.SearchResults | ReBuff/Config/IconStyleConfig.cs:107-117 | text that parses as a `ushort` gives exactly one result with that icon id; other non-empty text gives the action, status and item matches in that order; empty text gives no results |
| IconStyle.NumericQueryGivesOneIcon | ReBuff/Config/IconStyleConfig.cs:108-111 | searching for the decimal form of any icon id gives exactly that one icon, whatever the game data holds |
| IconStyle.Icons | ReBuff/Config/IconStyleConfig.cs:123 | `Select(t => t.Icon)`: one icon id per result, in order |
| IconStyle.IconStyleConfig.constructor | ReBuff/Config/IconStyleConfig.cs:43-63 | the field initialisers: icon option 0, custom icon 0, unit option 6, unit, max unit, threshold and max threshold all 100, empty search state |
| IconStyle.IconStyleConfig.GetDefault | ReBuff/Config/IconStyleConfig.cs:65 | the default is a new page with the field initialisers |
| IconStyle.IconStyleConfig.PickerIcons | ReBuff/Config/IconStyleConfig.cs:123 | the picker's icons have no duplicates, are exactly the results' icon ids, and keep first-occurrence order |
| IconStyle.IconStyleConfig.UpdateThresholds | ReBuff/Config/IconStyleConfig.cs:177-228 | with the Indicator option the threshold fields become `ThresholdRule` of the unit option; with any other option they are unchanged; no other field changes |
| IconStyle.IconStyleConfig.SubmitSearch | ReBuff/Config/IconStyleConfig.cs:105-118 | with the Custom Icon option the search box holds the text and the results are cleared and then become `SearchResults` of it; otherwise nothing changes |
| IconStyle.IconStyleConfig.PickIcon | ReBuff/Config/IconStyleConfig.cs:132-137 | the picked picker icon becomes the custom icon, and it is one of the results' icons; the results and the search box are cleared; the other fields are unchanged |

## Left out

- ImGui drawing and layout: tables, buttons, radio buttons, drag widgets, icon previews
  and screen geometry. It is UI; only the field updates made during drawing are modelled.
- Notifications and `PluginLog`: side effects with no influence on state.
- Clipboard I/O: the clipboard text is a parameter, and a failed read is `None`.
- Newtonsoft JSON, `DeflateStream` and Base64: opaque functions. Their round trip is an
  assumption (`CodecLaws`), not a proof. The binder's use inside Newtonsoft and the
  serializer settings are not modelled.
- `ExportToClipboard`, `SaveConfig`, `ExportAura`, `ExportLabel`, `EditAura`, `EditLabel`:
  each only forwards to the clipboard, a file write or the plugin manager's editor, none
  of which is part of this model.
- `GetAuraFromImportString` is not part of this model. `ImportAura` takes its decoder
  as a parameter.
- ReBuff's own `ConfigHelpers` is not part of this model. `ImportLabel` uses the XIVAuras
  `GetFromImportString` in its place.
- `IWidget`/`WidgetLabel`, `AuraType`, `LabelStyleConfig`, `TriggerData`, `AuraGroup`,
  `AuraIcon` and `AuraBar` are not part of this model:
  - `AuraType` is assumed to be `Group | Icon | Bar | Label`;
  - a one-argument `WidgetLabel` is assumed to start with empty text;
  - a new `WidgetLabel` is assumed to start with no style conditions;
  - a style setting the code does not assign is `None`, meaning "the class's own default";
  - a `TriggerData` search result is assumed to be (name, id, icon).
- `FontID` and `FontsManager.GetFontIndex`: they depend on fonts loaded at run time.
  Only the font key is modelled.
- `XIVAurasSerializationBinder.BindToType`: the `?? throw new TypeLoadException` arm is
  not modelled. `Type.GetType(..., true)` never returns null, so that arm is dead.
- List items (auras, labels) are class instances, and `List.Remove` is modelled as removing
  the first item that is the same object. The item classes are not part of this model, so
  that they do not override `Equals` is an assumption.
- `ConfigHelpers.ComboIdReadJson`, `ConfigHelpers.ArrayReadJson`: runtime types have only
  one-dimensional arrays. The code's `IsArray` test also holds for multi-dimensional arrays
  such as `uint[,]`, which the model instead sends to the standard deserialization.
- `ConfigHelpers.ArrayReadJson`: where the JSON reader stands after a scalar read that
  threw is not modelled, so neither is the effect of the unread array on the rest of the
  document.
- `Convert.ToBase64String` and the game-data searches (`FindActionEntries`,
  `FindStatusEntries`, `FindItemEntries`) are assumed not to throw; the code does not catch
  their exceptions, so a throw there would leave this code.
- `ComboIdConverter.CanConvert`, `ArrayConvertor.CanConvert` and both `WriteJson`
  methods: they decide only which members Newtonsoft attaches the converters to.
  `WriteJson` only throws.
- `NumberParsing.TryParseUInt16`: does not model culture-specific signs, or trailing NUL
  characters, which .NET also accepts.
- `_configTypes` entries are distinct types, and the binder constructor requires their
  full names to be distinct. The runtime guarantees this for types of one assembly; if two
  names were equal, `Dictionary.Add` would throw.
- `IconStyleConfig`: its drawing-only fields (positions, sizes, colours, glow, border,
  swipe, crop, desaturate, opacity) are left out. Only ImGui widgets write them, and those are
  left out.
  `_labelInput` is never used.
- `IconStyle.IconStyleConfig.SubmitSearch`: does not model ImGui's 32-character limit on
  the search box; the text is taken as submitted.
- `IconStyle.IconStyleConfig.PickIcon`: only the first click is modelled. Later icons in
  the same frame's loop still index the old local list.

## Findings

| source | as written | input that shows it | evidently intended | confidence | as-written member | corrected member |
|---|---|---|---|---|---|---|
| XIVAuras/Helpers/ConfigHelpers.cs:205-226 | `ArrayConvertor<T>.ReadJson` reads any `T[]` target as a single `T` without looking at the token | a `T[]` member already saved in array form, e.g. `[1, 2]`: the scalar read throws on the array token and the catch returns an empty array, dropping the saved elements | like `ComboIdConverter`, widen only the legacy scalar token and hand an array token to the standard deserializer | not executed; depends on Newtonsoft throwing when a scalar `T` is read at an array token, and on the converter being attached to a `T[]` member, which this code does not show | ConfigHelpers.ArrayTokenDelegatedOnlyWhenChecked | ConfigHelpers.ArrayReadJsonChecked |
