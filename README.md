# userstyles-manager, modelled in Dafny

userstyles-manager keeps a TOML file of userstyles. Each section names a
style and holds its numeric `id` and its settings. A run does four things:

1. It loads the file into `Style` values.
2. It refreshes each style's settings from the userstyles.org style-settings
   endpoint.
3. It writes the file back.
4. It asks the render endpoint for each style's CSS, posting the settings as
   a `key=val&…` body.

This project models the logic of `src/main.rs` between those I/O calls:

- the `Style` and `Setting` records and `find_settings_val`;
- `load_config` after the TOML parse;
- `update_style_settings` after the JSON parse;
- the text `save_style_settings` builds;
- the request body and address `get_style` builds.

Each imperative routine is a Dafny method with the same loops, early
returns and error messages. Each method is proved equal to a specification
function, and the properties the program promises are proved as lemmas
about those functions.

Files:

- `wrappers.dfy`: `Option`, `Result` and `Outcome`.
- `decimal.dfy`: the `i64` id type and Rust's decimal `Display` of
  integers. Also a parser, used to prove that a written id reads back.
- `text.dfy`: `Join`, `Split` (Rust's `str::split`) and `Terminated`
  (newline-ended lines), with their round-trip lemmas.
- `styles.dfy`: `Setting` (a datatype) and `Style` (a class, because
  `update_style_settings` rebuilds its settings in place). `StyleRecord` is
  a value snapshot of a `Style`, for use in specifications. The file also
  holds `find_settings_val`.
- `config_load.dfy`: the TOML values the loader tells apart, the
  specification `DecodeConfig`, and the methods `LoadConfig`, `LoadStyle`
  and `ReadSection`.
- `config_save.dfy`: the specification `Serialize` and the method
  `SaveStyleSettings`, plus readers that show every written line can be
  read back.
- `settings_api.dfy`: the decoded response, the specification `Refresh`,
  and the methods `UpdateStyleSettings` and `ScanOptions`. Its second
  module proves the properties.
- `render.dfy`: the request body and URI of `get_style`.

Errors are the exact messages `main.rs` formats, carried as strings.

Facts about the code that a reader might not expect:

- `run` refreshes every style's settings, whatever settings the style
  already has, despite the comment "Update settings if they are empty"
  (src/main.rs:85-88).
- The request body is sent without URL encoding (src/main.rs:267-279).
- When several options are flagged default, the last one wins
  (src/main.rs:220-223).
- Any id other than -1 loads, negative ones included (src/main.rs:151).

## Model

| member | source | states |
|---|---|---|
| Styles.Style.constructor | src/main.rs:41-47 | a new style has the given name, the sentinel id -1 and no settings |
| Styles.FindSettingsVal | src/main.rs:64-71 | returns the value of the first setting with the key; returns `None` exactly when no setting has the key; agrees with `Lookup` |
| Styles.LookupFindsFirst | src/main.rs:64-71 | the reference lookup is `None` exactly when no setting has the key; otherwise it is the value at the first position holding the key |
| Styles.LookupAt | src/main.rs:64-71 | at any position that is the first with its key, the lookup yields that setting's value |
| Decimal.IntToStringRoundTrip | src/main.rs:246 | the decimal text written for an id parses back to the same integer |
| Decimal.IntToStringInjective | src/main.rs:176 | distinct ids are written differently, so an error message names exactly one id |
| ConfigLoad.LoadConfig | src/main.rs:106-161 | succeeds exactly when `DecodeConfig` does; on success returns fresh, pairwise distinct `Style` objects whose fields are the decoded styles in table order; on failure returns `DecodeConfig`'s error |
| ConfigLoad.LoadStyle | src/main.rs:121-156 | one section becomes a fresh style with the decoded id, name and settings, or fails with the error `DecodeStyle` gives |
| ConfigLoad.ReadSection | src/main.rs:128-148 | the entry loop: sets the id and the settings the section scan gives, or returns the scan's error at the first wrongly typed entry; the name is unchanged |
| ConfigLoad.ScanSectionSpec | src/main.rs:129-148 | the scan fails exactly when some entry is wrongly typed, naming the first such entry; otherwise the settings are the non-`id` entries in order with empty comments, and the id is the last `id` entry's value (-1 when there is none) |
| ConfigLoad.IdIsExtends | src/main.rs:130-135 | a later `id` entry overrides the id, and any other entry keeps it |
| ConfigLoad.DecodeStyleSpec | src/main.rs:123-153 | a non-table fails first, then the first wrongly typed entry, then an id still at -1 (missing, or written as -1); otherwise the style has the section name, its id and its non-`id` entries |
| ConfigLoad.DecodeConfigSpec | src/main.rs:121-160 | loading succeeds exactly when every section decodes, giving one style per section in order; otherwise the error is that of the first failing section |
| ConfigLoad.DecodedStylesHaveIds | src/main.rs:151-156 | every loaded style has an id other than -1 and the name of its section |
| ConfigLoad.DecodeConfigStopsAt | src/main.rs:121-157 | when the sections before one decode and that one fails, its error is the whole load's error |
| ConfigLoad.DecodeConfigPrefixFails | src/main.rs:121-157 | once a section fails, the sections after it do not change the result |
| ConfigLoad.ScanSectionPrefixFails | src/main.rs:129-148 | once an entry is refused, the entries after it do not change the result |
| ConfigLoad.OnlyIdSection | src/tests/load_config.rs:99-108 | a section holding only `id = 13` loads as one style with id 13 and no settings |
| ConfigLoad.NotTableExample | src/tests/load_config.rs:44-55 | `key = 'val'` at top level fails with "Unable to parse 'key' as table." |
| ConfigLoad.IdNotIntegerExample | src/tests/load_config.rs:57-68 | a string `id` fails with "ID in style 'style' is not an integer." |
| ConfigLoad.SettingNotStringExample | src/tests/load_config.rs:70-84 | an integer setting fails with "Setting 'foobar' in style 'style' is not a string." |
| ConfigLoad.MissingIdExample | src/tests/load_config.rs:86-97 | a section without `id` fails with "Missing 'id' field in style style." |
| ConfigSave.SaveStyleSettings | src/main.rs:242-256 | the text built equals `Serialize` of the styles' current fields |
| ConfigSave.SerializeLines | src/main.rs:244-256 | the saved text is, style after style, the header line, the id line and one line per setting, each ended by a newline |
| ConfigSave.SavedTextLines | src/main.rs:244-256 | splitting the saved text at newlines gives back those lines, in order, followed by one empty piece after the final newline, when no field holds a newline |
| ConfigSave.ReadSettingLineRoundTrip | src/main.rs:248-254 | a written setting line reads back at its first two quotes to the same key, value and comment, when key and value hold no quote |
| ConfigSave.ReadBackStyle | src/main.rs:245-256 | the header line gives back the name, the id line gives back the id, and each setting line gives back its setting, when no key or value holds a double quote |
| ConfigSave.SavedExample | src/tests/save_style_settings.rs:57 | a style `style` with id -1 and setting `key`/`val` is saved as `[style]`, `id = -1`, `key = "val"` |
| ConfigSave.SavedHeaderExamples | src/tests/save_style_settings.rs:8-38 | styles without settings are saved as `[style]` with `id = -1` or `id = 15` |
| SettingsApi.UpdateStyleSettings | src/main.rs:164-239 | id and name are unchanged; it succeeds exactly when `Refresh` does, with the settings set to its value; on a reported error the settings are untouched; after a failing entry the settings are those rebuilt from the entries before it |
| SettingsApi.ScanOptions | src/main.rs:196-224 | the options loop succeeds exactly when every option has an install key; the comment and default it builds are `Comment` and `DefaultValue` |
| SettingsApiProperties.RefreshSpec | src/main.rs:175-235 | a `not_found` or `error` response fails naming the id; otherwise it succeeds exactly when every setting and option has an install key; the new settings then match the response entries one to one, in order, each keyed `ik-<install_key>` |
| SettingsApiProperties.RefreshOneSpec | src/main.rs:186-234 | one entry fails on a missing install key, then on an option without one; otherwise its key is `ik-<install_key>` and it carries the comment; its value is the first old setting's value for that key, else the last default option's key, else "" |
| SettingsApiProperties.RefreshAllSpec | src/main.rs:186-235 | the rebuild loop succeeds exactly when every entry does, giving one setting per entry in order; otherwise it fails with the first failing entry's error |
| SettingsApiProperties.DefaultValueEmpty | src/main.rs:200-223 | the remote default is "" exactly when no option is flagged default |
| SettingsApiProperties.DefaultValueIsLastDefault | src/main.rs:220-223 | the remote default is the `ik-` key of the last option flagged default |
| SettingsApiProperties.CommentListsOptions | src/main.rs:196-218 | when neither the setting type nor any option label holds a space, the comment split at spaces gives an empty first piece, "#", the setting type with a colon, then one label per option in order: the quoted value for `text` and `color` settings, the `ik-` key otherwise |
| SettingsApiProperties.RefreshDropsStaleKeys | src/main.rs:183-235 | an old setting whose key no response entry produces does not survive a refresh |
| SettingsApiProperties.RefreshIdempotent | src/main.rs:226-229 | when the response names each install key once, refreshing again with it changes nothing, because every chosen value is found again under its key |
| SettingsApiProperties.DropdownComment | src/tests/update_style_settings.rs:54 | a dropdown with options `tera` and `black` gets the comment " # dropdown: ik-tera ik-black" |
| SettingsApiProperties.ColorSetting | src/tests/update_style_settings.rs:57-86 | a colour setting gets the comment " # color: '#0F9D58'"; its value is the default option's key, or the existing "#f006a2" when the style had one |
| SettingsApiProperties.NotFoundExample | src/tests/update_style_settings.rs:15-26 | a `not_found` response for id 0 fails with "Style '0' does not exist." |
| SettingsApiProperties.NoEntriesExample | src/main.rs:183-235 | a response without settings leaves the style with none, whatever it had |
| Render.GetStyleRequest | src/main.rs:265-273 | the body is the settings' `key=val` pairs joined by `&` with no trailing `&`; the URI is the style base, the id and `.css?` |
| Render.RequestBodyEmpty | src/main.rs:267-271 | the body is empty exactly when the style has no settings |
| Render.RequestBodyReadsBack | src/main.rs:267-271 | for a style with at least one setting (an empty body splits into one empty field), splitting the body at `&` gives one field per setting, and splitting a field at `=` gives that setting's key and value, when no key or value holds `&` or `=` |

## Left out

- `run` (src/main.rs:75-103): opening and creating the file, printing CSS, and the order of the four steps. It refreshes every style unconditionally.
- The file write in `save_style_settings` (src/main.rs:259) and its possible I/O error: `SaveStyleSettings` returns the text that would be written.
- CommentListsOptions: holds only when neither the setting type nor any label holds a space. Values of `text` options are free text and may contain spaces, and then the comment cannot be split back into its labels.
- The HTTP requests: the style-settings request (src/main.rs:166-169) and the render POST (src/main.rs:276-286). The response of the first is an input of `UpdateStyleSettings`; the second's response is not modelled.
- TOML and JSON parsing (src/main.rs:115-118, 172) are external parsers. Their outputs are the inputs `TomlValue` and `Response`. The order of a table's entries is the order the parser's map yields, taken as given.
- TOML kinds other than table, integer and string are collapsed into one `OtherValue`.
- JSON is reduced to what the code reads:
  - `not_found` and `error` are booleans meaning "present and not null";
  - `install_key`, `setting_type` and `value` are `Some` when the field is a string;
  - `default` holds when the field is JSON `true`;
  - a `style_settings` or `style_setting_options` field that is not an array is an empty list, as `members()` yields.
- `error_chain` and `quick_main!` (src/main.rs:13-22, 74), and the context messages attached to I/O and parse errors: errors are plain messages.
- Setting values are written unescaped, so the read-back lemmas assume keys and values without a double quote and fields without a newline. Outside those inputs the saved file does not read back as written.
- Keys being unique within a style is not enforced by the code and not assumed by the model, except that `RefreshIdempotent` assumes distinct install keys in the response.
