# Website setting registration info

This project models the part of the content-settings system that describes one
website setting: `WebsiteSettingsInfo`. When it is constructed, it derives the
names of the setting's two preferences from the setting name. One preference
holds the per-site exceptions and the other holds the default value. The
constructor also insists that the initial default value is absent or an integer.
Separately, `GetPrefRegistrationFlags` computes the flags the preferences are
registered with, from two statuses: whether the setting is syncable and whether
it is lossy.

Everything is in one module, `ContentSettings`, in `website_settings_info.dfy`:

- `GetPrefName` is a method that copies the name, rewrites each `-` of the copy
  to `_` in place with a loop, and appends the copy to the prefix. It is proved
  equal to the specification function `PrefNameOf(name, prefix) ==
  prefix + ReplaceHyphens(name)`. The lemmas about `ReplaceHyphens` and
  `PrefNameOf` state what the derivation guarantees.
- `WebsiteSettingsInfo` is a class whose fields are all `const`, because the
  source sets them once in the constructor's initialiser list. `Valid()` ties
  the two derived names to the name.
- Registration flags are `bv32` words, the source's `uint32`. The flag
  constants are declared in preference-registry headers that are not part of
  this model. The model assumes `NoRegistrationFlags` is 0, `SyncablePref` is
  bit 0 and `LossyPref` is bit 8. Every contract is stated in terms of the named
  constants, so the proofs only use the fact that the two flags are distinct
  single bits.

A Dafny `string` here stands for the bytes of a C++ `std::string`, one `char`
per byte, so every length in the contracts is a byte count. Nothing is lost by
this reading: `-` and `_` are ASCII, and no ASCII byte occurs inside a UTF-8
multibyte sequence.

## Model

| member | source | states |
|---|---|---|
| ContentSettings.GetPrefName | components/content_settings/core/browser/website_settings_info.cc:18-22 | the built name is the prefix followed by the name with every `-` replaced by `_` (equals `PrefNameOf(name, prefix)`) |
| ContentSettings.ReplaceHyphensAt | components/content_settings/core/browser/website_settings_info.cc:20 | the replaced name has the original length, and at each offset holds the original character with `-` mapped to `_` |
| ContentSettings.ReplaceHyphensLength | components/content_settings/core/browser/website_settings_info.cc:20 | the replacement keeps the length of the name |
| ContentSettings.ReplaceHyphensPointwise | components/content_settings/core/browser/website_settings_info.cc:20 | the replacement is character for character: same length, `-` becomes `_`, every other character stays at its offset |
| ContentSettings.ReplaceHyphensRemovesHyphens | components/content_settings/core/browser/website_settings_info.cc:20 | no `-` is left after the replacement |
| ContentSettings.ReplaceHyphensFixesHyphenFree | components/content_settings/core/browser/website_settings_info.cc:20 | a name without `-` is left unchanged |
| ContentSettings.ReplaceHyphensIdempotent | components/content_settings/core/browser/website_settings_info.cc:20 | replacing a second time changes nothing |
| ContentSettings.ReplaceHyphensSameIff | components/content_settings/core/browser/website_settings_info.cc:20 | two names give the same replaced name if and only if they have the same length and agree at every offset once `-` and `_` are identified |
| ContentSettings.PrefNameLayout | components/content_settings/core/browser/website_settings_info.cc:18-22 | a derived name is as long as prefix plus name, starts with the prefix, keeps every character of the name other than `-` at its offset after the prefix, has `_` where the name has `-`, and has no `-` after the prefix |
| ContentSettings.PrefNameIsFixedPoint | components/content_settings/core/browser/website_settings_info.cc:15-22 | both prefixes are free of `-`, so replacing again over a whole derived name leaves it unchanged |
| ContentSettings.PrefNameSameIff | components/content_settings/core/browser/website_settings_info.cc:18-21 | with the same prefix, two names give the same preference if and only if their replaced names are equal |
| ContentSettings.ExceptionsAndDefaultPrefsDiffer | components/content_settings/core/browser/website_settings_info.cc:15-16 | an exceptions preference name never equals a default-value preference name, for any two setting names |
| ContentSettings.PrefNamesDiffer | components/content_settings/core/browser/website_settings_info.cc:36-37 | a constructed setting's exceptions preference name differs from its default-value preference name |
| ContentSettings.WebsiteSettingsInfo.constructor | components/content_settings/core/browser/website_settings_info.cc:28-46 | requires the initial default value to be absent or an integer; stores type, name, default value and both statuses unchanged; sets the exceptions preference name to the exceptions prefix followed by the replaced name, and the default-value preference name to the default-values prefix followed by it |
| ContentSettings.RegistrationFlags | components/content_settings/core/browser/website_settings_info.cc:50-59 | the syncable bit is set exactly for a syncable setting, the lossy bit exactly for a lossy one, no other bit is ever set, and when neither holds the result is the no-flags word |
| ContentSettings.RegistrationFlagsInjective | components/content_settings/core/browser/website_settings_info.cc:53-57 | two pairs of statuses give the same flags if and only if the pairs are equal |
| ContentSettings.WebsiteSettingsInfo.GetPrefRegistrationFlags | components/content_settings/core/browser/website_settings_info.cc:50-60 | returns `RegistrationFlags` of the setting's statuses: the syncable bit exactly when syncable, the lossy bit exactly when lossy, and nothing outside those two bits |

## Left out

- The values of `NO_REGISTRATION_FLAGS`, `SYNCABLE_PREF` and `LOSSY_PREF` are assumed, because the headers that declare them are not part of this model. The model takes them to be 0, bit 0 and bit 8.
- `base::ReplaceChars` in general is not modelled, because its body is in base/strings, which is not among the modelled sources. Only its use here is modelled: replacing the single character `-` with the single character `_`.
- The ownership transfer of the initial default value (`Pass()` at line 38) is not modelled. The model stores the value, because the model has no ownership.
- Strings are byte sequences with one `char` per byte; no character encoding is modelled, because the replacement only touches the ASCII byte `-`.
- `base::Value` is reduced to a type tag with small payloads. Only "absent or integer" matters to the constructor's check.
- The DCHECK at lines 44-45 is a debug-build assertion. The model makes it a precondition of the constructor, so a release build that goes on after a failed check is not modelled.
- The destructor (line 48) is empty and is not modelled. The accessors and the field declarations are in website_settings_info.h, which is not among the modelled sources, so the accessors are not modelled.
- Registering the preferences with a preference registry is not modelled, because that code is outside this file.
