# PII classifier and redactor, modelled in Dafny

The repository holds two independent implementations of one PII
classifier and redactor. Each takes one record, a JSON object parsed
from a CSV cell that maps field names to scalar values. Each decides
which fields are *standalone* PII (phone number, Aadhaar number,
passport number, UPI id) and whether enough *combinatorial* PII fields
(name, email, address, device id, IP address) occur together. Then it
returns a masked copy of the record and an `is_pii` flag. The two
implementations disagree in several places, so each is modelled as
written, in its own module:

- `Text` covers ASCII character classes (`\d`, `\w`, `\s`, upper and
  lower case) and the Python string operations both files use: `[:n]`,
  `[-n:]`, `replace`, `split('@', 1)`, `split()`, `' '.join`, `strip`,
  `upper`, `lower` and `in`.
- `Records` covers JSON scalars (`Value`), Python's `str()` and
  truthiness for them, and a record as a sequence of (key, value) pairs
  with distinct keys, kept in insertion order. It also defines the
  dictionary operations the detectors use: `d.get`, `d[k] = v`,
  `del d[k]`, and the list a loop over `d.items()` builds by
  appending.
- `Detector` models `detector_full_harinichitra.py`, class
  `PIIDetector`:
  - the pattern predicates `is_phone_number` … `is_physical_address`.
    Each regular expression under `search` becomes an existential over
    match positions of ASCII character predicates; `\b` is a change of
    word-character status between neighbours;
  - the two detection passes;
  - the prioritized masking dispatcher `redact_value`;
  - `process_record`.

  The loops of the source are methods:
  - `DetectStandalonePii`, `DetectCombinatorialPii`, the name branch
    `MaskFullName` and `ProcessRecord`.
  - Each is proved equal to a specification function: `StandaloneFields`,
    `CombinatorialFields`, `Redaction` or `RedactedRecord`.
  - The lemmas state what the source promises about those functions.
- `CtfDetector` models `ctf/detector_full_harinichitra.py`:
  - the six `mask_*` functions;
  - the detection and redaction block that `process_csv` runs on each
    parsed record.

  The block is the method `RedactRecord`, built from one method per step
  (`RedactStandalone`, `FindCombinatorialHits`, `RedactCombination`).
  It is proved equal to the function `Redacted`. `Redacted` returns either
  `Ok(record, isPii)` or `TypeError`. `TypeError` covers the two inputs on
  which the source raises:
  - `mask_name` indexing a truthy non-string half of the name;
  - `mask_email` testing `'@' in` a non-string email.

  The source's outer `except Exception` then ends the run.

Where the design description and the code disagree, the model follows the
code:
- The design says masking never raises; the ctf block does raise, as
  described above.
- The design says the name-field merge (delete `first_name`/`last_name`,
  insert `name`) happens during orchestration. Only the ctf file does it;
  `process_record` in `detector_full_harinichitra.py` never adds or
  removes keys (`Detector.RedactedRecord` keeps the key list).
- The design expects an email such as `john@gmail.com` to get the email
  mask in `redact_value`. But the UPI pattern `\b\w+@[a-zA-Z0-9]+\b` is
  tested first and also matches such an address. So it gets the UPI mask
  `joXX@gmail.com` (`Detector.LetterEmailTakesUpiBranch`).

## Model

| member | source | states |
|---|---|---|
| Records.Get | ctf/detector_full_harinichitra.py:138-139 | `d.get(k)` is present exactly when k is a key, and with distinct keys it is the value of the entry holding k |
| Records.Put | detector_full_harinichitra.py:226 | `d[k] = v`: an existing key keeps its place and gets v, a new key is appended; every other key reads as before and keys stay distinct |
| Records.Delete | ctf/detector_full_harinichitra.py:142-143 | `del d[k]`: k is gone, the remaining keys keep their order (a subsequence of the old key list), every other key reads as before, keys stay distinct |
| Records.Select | detector_full_harinichitra.py:92-121 | the keys appended by a loop over `d.items()` are keys of the record, and are distinct when the record's keys are |
| Records.SelectMember | detector_full_harinichitra.py:94-119 | with distinct keys, a key is in the appended list exactly when its own entry passes the test |
| Records.SelectOrdered | detector_full_harinichitra.py:94-119 | the appended list is a subsequence of the record's keys, so it follows record order |
| Detector.NormalizedCons | detector_full_harinichitra.py:46 | `replace(' ', '').replace('-', '')` drops exactly the spaces and dashes, one character at a time |
| Detector.DigitsOnlyOfNormalized | detector_full_harinichitra.py:158 | when the normalized value is all digits, `re.sub(r'[^\d]', '', value)` gives the same string |
| Detector.GroupedDigitsShape | detector_full_harinichitra.py:23 | a match of `\d{4}\s*\d{4}\s*\d{4}` has at least 12 characters, and exactly 12 only when they are all digits |
| Detector.AadharIff | detector_full_harinichitra.py:48-53 | `is_aadhar_number(v)` holds exactly when v with spaces and dashes removed is 12 digits (both directions) |
| Detector.TwelveDigitsNoPhone | detector_full_harinichitra.py:22 | in a 12-digit string no run of 10 digits is word-bounded at both ends, so `\b\d{10}\b` finds nothing |
| Detector.RedactAadhar | detector_full_harinichitra.py:156-166 | a value that normalizes to 12 digits fails `is_phone_number`, passes `is_aadhar_number`, and is redacted to its first 4 digits, ` XXXX XX` and its last 2 |
| Detector.RedactTwelveDigits | detector_full_harinichitra.py:162-166 | a value of exactly 12 digits d is redacted to `d[0..4] + " XXXX XX" + d[10..12]` |
| Detector.RedactTenDigits | detector_full_harinichitra.py:156-160 | a value that normalizes to 10 digits is a phone number and is redacted to the first 2 digits, `XXXXXX` and the last 2 |
| Detector.RedactPhoneBranch | detector_full_harinichitra.py:156-160 | in the phone branch, a digits-only form d of length 10 gives 10 characters `d[..2] + "XXXXXX" + d[8..]`, any other length gives `[REDACTED_PII]` |
| Detector.NoDigitNoNumber | detector_full_harinichitra.py:42-59 | a value without a digit is no phone, Aadhaar or passport number |
| Detector.RedactUpiBranch | detector_full_harinichitra.py:173-181 | in the UPI branch the result keeps everything after the first `@`; the user part becomes the phone mask when it is a phone number, else its first 2 characters and `XX` |
| Detector.RedactEmailBranch | detector_full_harinichitra.py:183-191 | in the email branch the part after the first `@` is kept verbatim, and a user part longer than 2 becomes its first 2 characters and `XXX`, any other becomes `XXX` |
| Detector.LetterEmailTakesUpiBranch | detector_full_harinichitra.py:25 | a digit-free address word@host… matches the UPI pattern and gets the UPI mask: user cut to 2 characters and `XX`, the rest after `@` kept |
| Detector.MaskedTokens | detector_full_harinichitra.py:197-201 | one masked token per token: the initial and `XXX` for a token longer than 1, else `XXX` |
| Detector.MaskedTokensWords | detector_full_harinichitra.py:195-202 | masked tokens are again non-empty and space-free |
| Detector.MaskFullName | detector_full_harinichitra.py:195-202 | the loop builds exactly the masked tokens of `value.split()`, joined by single spaces |
| Detector.RedactNameBranch | detector_full_harinichitra.py:193-202 | in the name branch, the result splits into as many tokens as the value, and each is the masked token of the one in that position |
| Detector.RedactValue | detector_full_harinichitra.py:151-209 | `redact_value` returns `Redaction(value, fieldName)`, the first branch whose pattern matches, with the marker fallbacks of lines 204-209 |
| Detector.DetectStandalonePii | detector_full_harinichitra.py:90-121 | the loop returns `StandaloneFields(data)` |
| Detector.StandaloneFieldsExact | detector_full_harinichitra.py:94-119 | a standalone key is listed exactly when its value is truthy and passes its own predicate; any other key exactly when it is truthy and passes one of the four |
| Detector.StandaloneFieldsOrdered | detector_full_harinichitra.py:90-121 | the standalone list follows record order and names each field at most once |
| Detector.DetectCombinatorialPii | detector_full_harinichitra.py:123-149 | the loop returns `CombinatorialFields(data)`, and `has_combination` holds exactly when that list has at least 2 entries |
| Detector.CombinatorialFieldsExact | detector_full_harinichitra.py:127-145 | `name` is listed exactly when truthy; the name halves when truthy and a full name; `email`/`address` when truthy and matching; `device_id`/`ip_address` when truthy and longer than 5 characters; no other key |
| Detector.CombinatorialFieldsOrdered | detector_full_harinichitra.py:123-149 | the combinatorial list follows record order and names each field at most once |
| Detector.RedactedRecord | detector_full_harinichitra.py:213 | the redacted record has exactly the input's keys, in the input's order |
| Detector.MaskedWhereStep | detector_full_harinichitra.py:225-231 | one assignment of `redact_value(record_data[field], field)` masks one more field from its original value and changes nothing else |
| Detector.ProcessRecord | detector_full_harinichitra.py:211-233 | the two loops return `RedactedRecord(data)`, and `is_pii` is "standalone list non-empty or has_combination" |
| Detector.FalsyFieldUnchanged | detector_full_harinichitra.py:95-96 | a field with a falsy value is in neither list and is returned as it was |
| Detector.NotPiiUnchanged | detector_full_harinichitra.py:221-233 | a record without PII is returned unchanged |
| Detector.RedactedRecordGet | detector_full_harinichitra.py:224-231 | each key reads as the mask of its original value when it is a standalone hit, or a combinatorial hit while the combination holds, and reads as its original value otherwise |
| CtfDetector.MaskPhoneShape | ctf/detector_full_harinichitra.py:23-25 | on 10 characters `mask_phone` returns 10 characters, keeps positions 0, 1, 8, 9 and puts `X` at 2 to 7 |
| CtfDetector.MaskPhoneIdempotent | ctf/detector_full_harinichitra.py:23-25 | masking a masked phone number again changes nothing (any input of at least 2 characters) |
| CtfDetector.AadhaarGroups | ctf/detector_full_harinichitra.py:9 | a full match of `\b\d{4}\s?\d{4}\s?\d{4}\b` has 12 to 14 characters, 4 digits first and 4 digits last |
| CtfDetector.MaskAadhaarShape | ctf/detector_full_harinichitra.py:27-30 | on a full match, `mask_aadhaar` is the first 4 digits, ` XXXX XX` and the last 2 digits, 14 characters |
| CtfDetector.MaskPassportShape | ctf/detector_full_harinichitra.py:32-34 | on a full passport match, the mask has 8 characters: the first 4 kept, then `XXXX` |
| CtfDetector.MaskUpiParts | ctf/detector_full_harinichitra.py:36-45 | `[REDACTED_PII]` with no `@`; otherwise the part after the first `@` is kept, and the local part becomes the phone mask if it is exactly 10 digits, else its first 2 characters and `XX` |
| CtfDetector.MaskEmailParts | ctf/detector_full_harinichitra.py:47-53 | `[REDACTED_PII]` with no `@`; otherwise the local part's first 2 characters and `XXX`, then the unchanged part after the first `@` |
| CtfDetector.MaskNameCases | ctf/detector_full_harinichitra.py:55-59 | `mask_name(f, l)` is `f[0]XXX l[0]XXX` when both are non-empty, the non-empty one's `?XXX` when one is empty, and `""` when both are |
| CtfDetector.StandaloneRedacted | ctf/detector_full_harinichitra.py:100-119 | the standalone loop keeps the record's length and keys |
| CtfDetector.StandaloneRedactedGet | ctf/detector_full_harinichitra.py:104-119 | after the standalone loop a key holds its mask exactly when its value is a string and the full-match test of its own key passes; a key outside phone/aadhar/passport/upi_id (a 10-digit value under any other key, say) keeps its value |
| CtfDetector.StandaloneStep | ctf/detector_full_harinichitra.py:104-119 | one iteration overwrites at most the current key, with its mask |
| CtfDetector.RedactStandalone | ctf/detector_full_harinichitra.py:100-119 | the loop returns `StandaloneRedacted(data)`, and `standalone_pii_found` holds exactly when some key's test passed |
| CtfDetector.PresentKeys | ctf/detector_full_harinichitra.py:130-132 | a key is listed exactly when it is one of the given keys and the record holds it |
| CtfDetector.AppendPresentKeys | ctf/detector_full_harinichitra.py:130-132 | the loop over `COMBINATORIAL_KEYS` appends exactly the present keys, in order |
| CtfDetector.FindCombinatorialHits | ctf/detector_full_harinichitra.py:125-132 | the hits are `name` when both halves are keys, then the present combinatorial keys |
| CtfDetector.HitsFromPresence | ctf/detector_full_harinichitra.py:125-132 | hits come only from which keys are present: `name` exactly for the name pair, each combinatorial key exactly when present, nothing else |
| CtfDetector.NamePairAloneDoesNotFire | ctf/detector_full_harinichitra.py:125-134 | with none of email/address/device_id/ip_address present there is at most one hit, and the result is the standalone step's |
| CtfDetector.RedactName | ctf/detector_full_harinichitra.py:137-143 | the name edit is `MergeName`: `name` set to `mask_name(first, last)`, then the halves deleted; a TypeError for a truthy non-string half |
| CtfDetector.MergeNameGet | ctf/detector_full_harinichitra.py:137-143 | after the name edit, `name` holds the masked name, the halves are absent and every other key reads as before |
| CtfDetector.EmailFieldGet | ctf/detector_full_harinichitra.py:145-146 | the email edit writes only `email`; every other key reads as before |
| CtfDetector.WriteMarkers | ctf/detector_full_harinichitra.py:148-155 | the fixed markers are written exactly for address, device_id and ip_address among the hits |
| CtfDetector.MarkersGet | ctf/detector_full_harinichitra.py:148-155 | after the markers, address reads `[REDACTED_ADDRESS]`, device_id and ip_address `[REDACTED_PII]` when hit, every other key as before |
| CtfDetector.RedactCombination | ctf/detector_full_harinichitra.py:134-155 | the combination edits return `CombinationRedacted`, None on the TypeError paths |
| CtfDetector.RedactRecord | ctf/detector_full_harinichitra.py:99-155 | the block returns `Redacted(data)` |
| CtfDetector.OutcomeCases | ctf/detector_full_harinichitra.py:121-155 | `is_pii` is "standalone found or at least 2 hits"; the run stops with a TypeError exactly when the combination fires and a name half is a truthy non-string, or the email is not a string |
| CtfDetector.CombinationMarkers | ctf/detector_full_harinichitra.py:145-155 | the combination step writes the markers of the hit keys and the email mask computed from the original email value |
| CtfDetector.CombinationEffects | ctf/detector_full_harinichitra.py:134-155 | when the combination fires, the record is PII, and every present address/device_id/ip_address holds its marker and a present email holds `mask_email` of its original value |
| CtfDetector.CombinationName | ctf/detector_full_harinichitra.py:137-143 | the name edit survives the later steps: no halves, `name` is the masked name |
| CtfDetector.NameMerged | ctf/detector_full_harinichitra.py:137-143 | when the combination fires with the name pair, the output has no `first_name`/`last_name` and `name` is `mask_name(first, last)` |
| CtfDetector.CombinationGet | ctf/detector_full_harinichitra.py:134-155 | the combination step writes only the keys it flags: every other key (outside the combination keys, a combinatorial key that is not a hit, or `name`/`first_name`/`last_name` when `name` is not a hit) reads afterwards as before |
| CtfDetector.UntouchedKeys | ctf/detector_full_harinichitra.py:99-155 | a key the combination step does not flag (outside the combination keys, a combinatorial key the record lacks, or a name key without the name pair) leaves the block as the standalone loop left it, and keeps its input value if it is not a standalone key either |

## Left out

- Reading and writing CSV, opening files, `FileNotFoundError`, `sys.argv`, output-path derivation, counters and printed summaries: these are I/O around the core.
- `json.loads`, `json.dumps` and the malformed-JSON pass-through row: the model starts from a parsed record.
- Non-object JSON payloads and nested values (lists, objects) and floats inside a record: `Value` holds strings, integers, booleans and null only.
- Records.Render: written out concretely as Python's `str()` for the scalars above rather than as an uninterpreted function; floats are not modelled.
- The Python regular-expression engine and Unicode semantics of `\d`, `\w`, `\s`, `upper()`, `lower()` and `split()`: every class is ASCII. `\s` and `split()` take space, `\t` to `\r` and `\x1c` to `\x1f`.
- The generic `except Exception` handlers: the ctf model stops at `TypeError`, and the handler that ends the run is not modelled.
- `PIIDetector.__init__`: its pattern tables and key sets are module constants.
- CtfDetector.MaskNameCases: states the cases only for halves whose first character is not whitespace, because `strip()` also removes a leading or trailing whitespace initial; `MaskName` itself models that too.
- CtfDetector.MaskAadhaarShape: states the result for full matches only; `mask_aadhaar` on other strings is modelled by `MaskAadhaar` but has no shape lemma.
