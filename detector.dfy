/** The class `PIIDetector` of detector_full_harinichitra.py. Its patterns are
    searched for anywhere in a field's text; fields outside the standalone key
    set are scanned with every standalone pattern, and the mask of a value is
    chosen from the value's own shape, in a fixed order of patterns. */
module Detector {
  import opened Text
  import opened Records

  const RedactedPii := "[REDACTED_PII]"
  const RedactedAddress := "[REDACTED_ADDRESS]"

  /** `self.standalone_fields` */
  const StandaloneKeys: set<string> := {"phone", "aadhar", "passport", "upi_id"}

  /** The keys whose value is tested against the full-name pattern. */
  const NameKeys: set<string> := {"name", "first_name", "last_name"}

  /** `self.address_keywords` */
  const AddressKeywords: seq<string> := ["street", "road", "avenue", "lane", "block", "sector", "nagar", "colony"]

  /** `value.replace(' ', '').replace('-', '')` */
  function Normalized(value: string): string { Without(Without(value, ' '), '-') }

  // ---------------------------------------------------------------------
  // Patterns. A `search` succeeds when some slice of the text matches the
  // pattern with the `\b` anchors holding at its two ends.
  // ---------------------------------------------------------------------

  /** `\b\d{10}\b` matches t[i..i + 10]. */
  predicate PhoneAt(t: string, i: int)
  {
    0 <= i && i + 10 <= |t| && WordBoundary(t, i) && AllDigits(t[i..i + 10]) && WordBoundary(t, i + 10)
  }

  /** `is_phone_number` */
  predicate IsPhoneNumber(value: string)
  {
    var t := Normalized(value);
    exists i | 0 <= i <= |t| - 10 :: PhoneAt(t, i)
  }

  /** `\d{4}\s*\d{4}\s*\d{4}` matches all of s. Whitespace and digits are
      disjoint, so each `\s*` takes exactly the whitespace in front of it. */
  predicate GroupedDigits(s: string)
  {
    |s| >= 4 && AllDigits(s[..4]) &&
    var r := DropSpaces(s[4..]);
    |r| >= 4 && AllDigits(r[..4]) &&
    var r' := DropSpaces(r[4..]);
    |r'| == 4 && AllDigits(r')
  }

  /** `\b\d{4}\s*\d{4}\s*\d{4}\b|\b\d{12}\b` matches t[i..j]. */
  predicate AadharAt(t: string, i: int, j: int)
  {
    0 <= i <= j <= |t| && WordBoundary(t, i) && WordBoundary(t, j) &&
    (GroupedDigits(t[i..j]) || (j - i == 12 && AllDigits(t[i..j])))
  }

  /** `is_aadhar_number` */
  predicate IsAadharNumber(value: string)
  {
    var n := Normalized(value);
    (exists i, j | 0 <= i <= |n| && i <= j <= |n| :: AadharAt(n, i, j)) && |n| == 12
  }

  /** `\b[A-Z]\d{7}\b` matches t[i..i + 8]. */
  predicate PassportAt(t: string, i: int)
  {
    0 <= i && i + 8 <= |t| && WordBoundary(t, i) && IsUpper(t[i]) &&
    AllDigits(t[i + 1..i + 8]) && WordBoundary(t, i + 8)
  }

  /** `is_passport_number`: the pattern is searched for in `value.upper()`. */
  predicate IsPassportNumber(value: string)
  {
    var t := Upper(value);
    exists i | 0 <= i <= |t| - 8 :: PassportAt(t, i)
  }

  /** `\b\w+@[a-zA-Z0-9]+\b|\b\d{10}@[a-zA-Z0-9]+\b` matches t[i..m], with the
      `@` at k. The two alternatives share the part after the `@`. */
  predicate UpiAt(t: string, i: int, k: int, m: int)
  {
    0 <= i < k && k + 1 < m <= |t| && WordBoundary(t, i) && t[k] == '@' && WordBoundary(t, m) &&
    (AllOf(t[i..k], IsWord) || (k - i == 10 && AllDigits(t[i..k]))) &&
    AllOf(t[k + 1..m], IsAlnum)
  }

  /** `is_upi_id` */
  predicate IsUpiId(value: string)
  {
    exists i, k, m | 0 <= i < |value| && i < k < |value| && k + 1 < m <= |value| :: UpiAt(value, i, k, m)
  }

  predicate IsEmailLocalChar(c: char) { IsAlnum(c) || c == '.' || c == '_' || c == '%' || c == '+' || c == '-' }
  predicate IsEmailDomainChar(c: char) { IsAlnum(c) || c == '.' || c == '-' }

  /** `[A-Z|a-z]`: the bar is a member of the class. */
  predicate IsTopLevelChar(c: char) { IsUpper(c) || IsLower(c) || c == '|' }

  /** `\b[A-Za-z0-9._%+-]+@[A-Za-z0-9.-]+\.[A-Z|a-z]{2,}\b` matches t[i..m],
      with the `@` at k and the last `\.` at d. */
  predicate EmailAt(t: string, i: int, k: int, d: int, m: int)
  {
    0 <= i < k && k + 1 < d && d + 3 <= m <= |t| && WordBoundary(t, i) && WordBoundary(t, m) &&
    AllOf(t[i..k], IsEmailLocalChar) && t[k] == '@' && AllOf(t[k + 1..d], IsEmailDomainChar) &&
    t[d] == '.' && AllOf(t[d + 1..m], IsTopLevelChar)
  }

  /** `is_email` */
  predicate IsEmail(value: string)
  {
    exists i, k, d, m | 0 <= i < |value| && i < k < |value| && k < d < |value| && d < m <= |value| ::
      EmailAt(value, i, k, d, m)
  }

  /** `\b[A-Z][a-z]+\s+[A-Z][a-z]+\b` matches t[i..m]: a first word t[i..j],
      whitespace t[j..k] and a second word t[k..m]. */
  predicate FullNameAt(t: string, i: int, j: int, k: int, m: int)
  {
    0 <= i && i + 2 <= j < k && k + 2 <= m <= |t| && WordBoundary(t, i) && WordBoundary(t, m) &&
    IsUpper(t[i]) && AllOf(t[i + 1..j], IsLower) && AllOf(t[j..k], IsSpace) &&
    IsUpper(t[k]) && AllOf(t[k + 1..m], IsLower)
  }

  /** `is_full_name` */
  predicate IsFullName(value: string)
  {
    exists i, j, k, m | 0 <= i < |value| && i < j < |value| && j < k < |value| && k < m <= |value| ::
      FullNameAt(value, i, j, k, m)
  }

  /** `is_physical_address`: a keyword in the lower-cased text, a digit, and
      more than 10 characters. */
  predicate IsPhysicalAddress(value: string)
  {
    var lower := Lower(value);
    (exists w | w in AddressKeywords :: Contains(lower, w)) &&
    (exists i | 0 <= i < |value| :: IsDigit(value[i])) &&
    |value| > 10
  }

  // ---------------------------------------------------------------------
  // redact_value
  // ---------------------------------------------------------------------

  /** One word of a full name: its initial and `XXX`, or `XXX` alone. */
  function MaskedToken(part: string): string
  {
    if |part| > 1 then [part[0]] + "XXX" else "XXX"
  }

  function MaskedTokens(parts: seq<string>): (masked: seq<string>)
    ensures |masked| == |parts|
    ensures forall i | 0 <= i < |parts| :: masked[i] == MaskedToken(parts[i])
  {
    if parts == [] then [] else MaskedTokens(parts[..|parts| - 1]) + [MaskedToken(parts[|parts| - 1])]
  }

  /** What `redact_value(value, field_name)` returns for a string value: the
      first pattern that the value matches picks the mask. */
  function Redaction(value: string, fieldName: string): string
  {
    if IsPhoneNumber(value) then
      var cleanPhone := DigitsOnly(value);
      if |cleanPhone| == 10 then Take(cleanPhone, 2) + "XXXXXX" + TakeLast(cleanPhone, 2) else RedactedPii
    else if IsAadharNumber(value) then
      var cleanAadhar := DigitsOnly(value);
      if |cleanAadhar| == 12 then Take(cleanAadhar, 4) + " XXXX XX" + TakeLast(cleanAadhar, 2) else RedactedPii
    else if IsPassportNumber(value) then
      if |value| >= 4 then Take(value, 4) + "XXXX" else RedactedPii
    else if IsUpiId(value) then
      if '@' in value then
        var username := Before(value, '@');
        var maskedUsername :=
          if IsPhoneNumber(username) then Take(username, 2) + "XXXXXX" + TakeLast(username, 2)
          else Take(username, 2) + "XX";
        maskedUsername + "@" + After(value, '@')
      else RedactedPii
    else if IsEmail(value) then
      if '@' in value then
        var username := Before(value, '@');
        var maskedUsername := if |username| > 2 then Take(username, 2) + "XXX" else "XXX";
        maskedUsername + "@" + After(value, '@')
      else RedactedPii
    else if IsFullName(value) then
      JoinSpace(MaskedTokens(Tokens(value)))
    else if fieldName == "address" || IsPhysicalAddress(value) then
      RedactedAddress
    else
      RedactedPii
  }

  /** The name branch of `redact_value`: the masked words, built in a loop. */
  method MaskFullName(value: string) returns (r: string)
    ensures r == JoinSpace(MaskedTokens(Tokens(value)))
  {
    var parts := Tokens(value);
    var maskedParts: seq<string> := [];
    for i := 0 to |parts|
      invariant maskedParts == MaskedTokens(parts[..i])
    {
      assert parts[..i + 1][..i] == parts[..i];
      var part := parts[i];
      if |part| > 1 {
        maskedParts := maskedParts + [[part[0]] + "XXX"];
      } else {
        maskedParts := maskedParts + ["XXX"];
      }
    }
    assert parts[..|parts|] == parts;
    return JoinSpace(maskedParts);
  }

  /** `redact_value` */
  method RedactValue(value: string, fieldName: string) returns (r: string)
    ensures r == Redaction(value, fieldName)
  {
    if IsPhoneNumber(value) {
      var cleanPhone := DigitsOnly(value);
      if |cleanPhone| == 10 {
        return Take(cleanPhone, 2) + "XXXXXX" + TakeLast(cleanPhone, 2);
      }
    } else if IsAadharNumber(value) {
      var cleanAadhar := DigitsOnly(value);
      if |cleanAadhar| == 12 {
        return Take(cleanAadhar, 4) + " XXXX XX" + TakeLast(cleanAadhar, 2);
      }
    } else if IsPassportNumber(value) {
      if |value| >= 4 {
        return Take(value, 4) + "XXXX";
      }
    } else if IsUpiId(value) {
      if '@' in value {
        var username, domain := Before(value, '@'), After(value, '@');
        var maskedUsername;
        if IsPhoneNumber(username) {
          maskedUsername := Take(username, 2) + "XXXXXX" + TakeLast(username, 2);
        } else {
          maskedUsername := Take(username, 2) + "XX";
        }
        return maskedUsername + "@" + domain;
      }
    } else if IsEmail(value) {
      if '@' in value {
        var username, domain := Before(value, '@'), After(value, '@');
        var maskedUsername;
        if |username| > 2 {
          maskedUsername := Take(username, 2) + "XXX";
        } else {
          maskedUsername := "XXX";
        }
        return maskedUsername + "@" + domain;
      }
    } else if IsFullName(value) {
      r := MaskFullName(value);
      return;
    } else if fieldName == "address" || IsPhysicalAddress(value) {
      return RedactedAddress;
    }
    return RedactedPii;
  }

  // ---------------------------------------------------------------------
  // detect_standalone_pii and detect_combinatorial_pii
  // ---------------------------------------------------------------------

  /** The test that `detect_standalone_pii` applies to the string form of a
      field: a standalone key only by its own pattern, any other key by all four. */
  predicate StandaloneMatch(key: string, text: string)
  {
    if key in StandaloneKeys then
      (key == "phone" && IsPhoneNumber(text)) || (key == "aadhar" && IsAadharNumber(text)) ||
      (key == "passport" && IsPassportNumber(text)) || (key == "upi_id" && IsUpiId(text))
    else
      IsPhoneNumber(text) || IsAadharNumber(text) || IsPassportNumber(text) || IsUpiId(text)
  }

  /** Falsy values are skipped. */
  predicate StandaloneHit(key: string, value: Value)
  {
    Truthy(value) && StandaloneMatch(key, Render(value))
  }

  /** The list `detect_standalone_pii` returns. */
  function StandaloneFields(data: Record): seq<string>
  {
    Select(data, StandaloneHit)
  }

  method DetectStandalonePii(data: Record) returns (piiFields: seq<string>)
    ensures piiFields == StandaloneFields(data)
  {
    piiFields := [];
    for i := 0 to |data|
      invariant piiFields == Select(data[..i], StandaloneHit)
    {
      SelectStep(data, StandaloneHit, i);
      var (key, value) := data[i];
      if !Truthy(value) {
        continue;
      }
      var valueStr := Render(value);
      if key in StandaloneKeys {
        if key == "phone" && IsPhoneNumber(valueStr) {
          piiFields := piiFields + [key];
        } else if key == "aadhar" && IsAadharNumber(valueStr) {
          piiFields := piiFields + [key];
        } else if key == "passport" && IsPassportNumber(valueStr) {
          piiFields := piiFields + [key];
        } else if key == "upi_id" && IsUpiId(valueStr) {
          piiFields := piiFields + [key];
        }
      } else {
        if IsPhoneNumber(valueStr) {
          piiFields := piiFields + [key];
        } else if IsAadharNumber(valueStr) {
          piiFields := piiFields + [key];
        } else if IsPassportNumber(valueStr) {
          piiFields := piiFields + [key];
        } else if IsUpiId(valueStr) {
          piiFields := piiFields + [key];
        }
      }
    }
    assert data[..|data|] == data;
  }

  /** The test that `detect_combinatorial_pii` applies to the string form of a field. */
  predicate CombinatorialMatch(key: string, text: string)
  {
    (key in NameKeys && IsFullName(text)) || key == "name" ||
    (key == "email" && IsEmail(text)) || (key == "address" && IsPhysicalAddress(text)) ||
    ((key == "device_id" || key == "ip_address") && |text| > 5)
  }

  predicate CombinatorialHit(key: string, value: Value)
  {
    Truthy(value) && CombinatorialMatch(key, Render(value))
  }

  /** The list `detect_combinatorial_pii` returns. */
  function CombinatorialFields(data: Record): seq<string>
  {
    Select(data, CombinatorialHit)
  }

  /** `has_combination` */
  predicate HasCombination(data: Record)
  {
    |CombinatorialFields(data)| >= 2
  }

  method DetectCombinatorialPii(data: Record) returns (potentialPii: seq<string>, hasCombination: bool)
    ensures potentialPii == CombinatorialFields(data)
    ensures hasCombination <==> |potentialPii| >= 2
  {
    potentialPii := [];
    for i := 0 to |data|
      invariant potentialPii == Select(data[..i], CombinatorialHit)
    {
      SelectStep(data, CombinatorialHit, i);
      var (key, value) := data[i];
      if !Truthy(value) {
        continue;
      }
      var valueStr := Render(value);
      if key in NameKeys && IsFullName(valueStr) {
        potentialPii := potentialPii + [key];
      } else if key == "name" {
        potentialPii := potentialPii + [key];
      } else if key == "email" && IsEmail(valueStr) {
        potentialPii := potentialPii + [key];
      } else if key == "address" && IsPhysicalAddress(valueStr) {
        potentialPii := potentialPii + [key];
      } else if (key == "device_id" || key == "ip_address") && |valueStr| > 5 {
        potentialPii := potentialPii + [key];
      }
    }
    assert data[..|data|] == data;
    hasCombination := |potentialPii| >= 2;
  }

  // ---------------------------------------------------------------------
  // process_record
  // ---------------------------------------------------------------------

  /** Whether `process_record` overwrites the field under key. */
  predicate Flagged(data: Record, key: string)
  {
    key in StandaloneFields(data) || (HasCombination(data) && key in CombinatorialFields(data))
  }

  /** `is_pii` */
  predicate IsPii(data: Record)
  {
    |StandaloneFields(data)| > 0 || HasCombination(data)
  }

  /** A field overwritten with the mask of its own value. */
  function MaskedEntry(entry: (string, Value)): (string, Value)
  {
    (entry.0, Str(Redaction(Render(entry.1), entry.0)))
  }

  /** The record `process_record` returns: each flagged field holds the mask
      of its original value, every other field is as it was. */
  function RedactedRecord(data: Record): (r: Record)
    ensures KeysOf(r) == KeysOf(data)
  {
    seq(|data|, i requires 0 <= i < |data| => if Flagged(data, data[i].0) then MaskedEntry(data[i]) else data[i])
  }

  /** r is data with exactly the fields under keys masked. */
  predicate MaskedWhere(data: Record, r: Record, keys: seq<string>)
  {
    |r| == |data| && forall j | 0 <= j < |data| :: r[j] == if data[j].0 in keys then MaskedEntry(data[j]) else data[j]
  }

  /** One assignment `redacted_data[field] = self.redact_value(record_data[field], field)`. */
  lemma MaskedWhereStep(data: Record, r: Record, keys: seq<string>, field: string)
    requires DistinctKeys(data) && HasKey(data, field) && MaskedWhere(data, r, keys)
    ensures MaskedWhere(data, Put(r, field, Str(Redaction(Render(Get(data, field).value), field))), keys + [field])
  {
    var v := Str(Redaction(Render(Get(data, field).value), field));
    PutAligned(data, r, field, v);
    var r' := Put(r, field, v);
    forall j | 0 <= j < |data|
      ensures r'[j] == if data[j].0 in keys + [field] then MaskedEntry(data[j]) else data[j]
    {
      if data[j].0 == field {
        assert Get(data, field) == Some(data[j].1);
      }
    }
  }

  lemma MaskedWhereFlagged(data: Record, r: Record, keys: seq<string>)
    requires MaskedWhere(data, r, keys)
    requires forall j | 0 <= j < |data| :: data[j].0 in keys <==> Flagged(data, data[j].0)
    ensures r == RedactedRecord(data)
  {
  }

  method ProcessRecord(recordData: Record) returns (redactedData: Record, isPii: bool)
    requires DistinctKeys(recordData)
    ensures redactedData == RedactedRecord(recordData)
    ensures isPii == IsPii(recordData)
  {
    redactedData := recordData;
    var standalonePii := DetectStandalonePii(recordData);
    var combinatorialFields, hasCombination := DetectCombinatorialPii(recordData);
    isPii := |standalonePii| > 0 || hasCombination;

    for n := 0 to |standalonePii|
      invariant MaskedWhere(recordData, redactedData, standalonePii[..n])
    {
      var field := standalonePii[n];
      MaskedWhereStep(recordData, redactedData, standalonePii[..n], field);
      var maskedValue := RedactValue(Render(Get(recordData, field).value), field);
      redactedData := Put(redactedData, field, Str(maskedValue));
      TakeStep(standalonePii, n);
    }
    assert standalonePii[..|standalonePii|] == standalonePii;
    var masked := standalonePii;

    if hasCombination {
      for n := 0 to |combinatorialFields|
        invariant MaskedWhere(recordData, redactedData, standalonePii + combinatorialFields[..n])
      {
        var field := combinatorialFields[n];
        MaskedWhereStep(recordData, redactedData, standalonePii + combinatorialFields[..n], field);
        var maskedValue := RedactValue(Render(Get(recordData, field).value), field);
        redactedData := Put(redactedData, field, Str(maskedValue));
        PrefixStep(standalonePii, combinatorialFields, n);
      }
      assert combinatorialFields[..|combinatorialFields|] == combinatorialFields;
      masked := standalonePii + combinatorialFields;
    }
    MaskedWhereFlagged(recordData, redactedData, masked);
  }

  // ---------------------------------------------------------------------
  // Properties of the patterns
  // ---------------------------------------------------------------------

  /** Removing spaces and then dashes, one character at a time. */
  lemma NormalizedCons(value: string)
    requires value != []
    ensures Normalized(value) == (if value[0] == ' ' || value[0] == '-' then [] else [value[0]]) + Normalized(value[1..])
  {
    var head := if value[0] == ' ' then [] else [value[0]];
    assert Without(value, ' ') == head + Without(value[1..], ' ');
    WithoutAppend(head, Without(value[1..], ' '), '-');
    if head != [] {
      assert head[1..] == [];
    }
  }

  /** When the normalized text is all digits, it is also the digits-only text. */
  lemma {:induction false} DigitsOnlyOfNormalized(value: string)
    requires AllDigits(Normalized(value))
    ensures DigitsOnly(value) == Normalized(value)
  {
    if value != [] {
      NormalizedCons(value);
      var head := if value[0] == ' ' || value[0] == '-' then [] else [value[0]];
      var n := Normalized(value);
      var rest := Normalized(value[1..]);
      assert AllDigits(rest) by {
        forall i | 0 <= i < |rest| ensures IsDigit(rest[i]) {
          assert rest[i] == n[|head| + i];
        }
      }
      DigitsOnlyOfNormalized(value[1..]);
      if head != [] {
        assert n[0] == value[0];
      }
    }
  }

  /** A text matched by the grouped Aadhaar alternative holds at least 12
      characters, and exactly 12 only when it has no whitespace at all. */
  lemma GroupedDigitsShape(s: string)
    requires GroupedDigits(s)
    ensures |s| >= 12 && (|s| == 12 ==> AllDigits(s))
  {
    var r := DropSpaces(s[4..]);
    var r' := DropSpaces(r[4..]);
    if |s| == 12 {
      assert r == s[4..];
      assert r' == s[8..];
      forall i | 0 <= i < 12 ensures IsDigit(s[i]) {
        if i < 4 {
          assert s[..4][i] == s[i];
        } else if i < 8 {
          assert r[..4][i - 4] == s[i];
        } else {
          assert r'[i - 8] == s[i];
        }
      }
    }
  }

  /** `is_aadhar_number` holds exactly when the normalized text is 12 digits. */
  lemma AadharIff(value: string)
    ensures IsAadharNumber(value) <==> |Normalized(value)| == 12 && AllDigits(Normalized(value))
  {
    var n := Normalized(value);
    if |n| == 12 && AllDigits(n) {
      assert n[0..12] == n;
      assert AadharAt(n, 0, 12);
    }
    if IsAadharNumber(value) {
      var i, j :| 0 <= i <= |n| && i <= j <= |n| && AadharAt(n, i, j);
      var m := n[i..j];
      if GroupedDigits(m) {
        GroupedDigitsShape(m);
      }
      assert i == 0 && j == 12;
      assert m == n;
    }
  }

  /** In 12 digits no run of 10 digits has a word boundary at both ends. */
  lemma TwelveDigitsNoPhone(t: string)
    requires |t| == 12 && AllDigits(t)
    ensures forall i | 0 <= i <= |t| - 10 :: !PhoneAt(t, i)
  {
    forall i | 0 <= i <= |t| - 10 ensures !PhoneAt(t, i) {
      if i == 0 {
        assert WordAt(t, 9) && WordAt(t, 10);
      } else {
        assert WordAt(t, i - 1) && WordAt(t, i);
      }
    }
  }

  // ---------------------------------------------------------------------
  // Properties of redact_value
  // ---------------------------------------------------------------------

  /** A value that normalizes to 12 digits (`123456789012`, `1234 5678 9012`,
      `1234-5678-9012`) is no phone number, and is masked as an Aadhaar number. */
  lemma RedactAadhar(value: string, fieldName: string)
    requires |Normalized(value)| == 12 && AllDigits(Normalized(value))
    ensures !IsPhoneNumber(value) && IsAadharNumber(value)
    ensures Redaction(value, fieldName) == Normalized(value)[..4] + " XXXX XX" + Normalized(value)[10..]
  {
    TwelveDigitsNoPhone(Normalized(value));
    AadharIff(value);
    DigitsOnlyOfNormalized(value);
  }

  /** The same for a value of exactly 12 digits. */
  lemma RedactTwelveDigits(value: string, fieldName: string)
    requires |value| == 12 && AllDigits(value)
    ensures Redaction(value, fieldName) == value[..4] + " XXXX XX" + value[10..]
  {
    WithoutAbsent(value, ' ');
    WithoutAbsent(value, '-');
    RedactAadhar(value, fieldName);
  }

  /** A value that normalizes to 10 digits (`9876543210`, `98765 43210`,
      `98765-43210`) is a phone number and keeps its first and last two digits. */
  lemma RedactTenDigits(value: string, fieldName: string)
    requires |Normalized(value)| == 10 && AllDigits(Normalized(value))
    ensures IsPhoneNumber(value)
    ensures Redaction(value, fieldName) == Normalized(value)[..2] + "XXXXXX" + Normalized(value)[8..]
  {
    var n := Normalized(value);
    assert n[0..10] == n;
    assert PhoneAt(n, 0);
    DigitsOnlyOfNormalized(value);
  }

  /** The phone branch: the mask when the value holds 10 digits in all, the
      generic marker otherwise. */
  lemma RedactPhoneBranch(value: string, fieldName: string)
    requires IsPhoneNumber(value)
    ensures var d := DigitsOnly(value); var r := Redaction(value, fieldName);
      (|d| == 10 ==> |r| == 10 && r[..2] == d[..2] && r[2..8] == "XXXXXX" && r[8..] == d[8..]) &&
      (|d| != 10 ==> r == RedactedPii)
  {
    var d := DigitsOnly(value);
    if |d| == 10 {
      var r := Redaction(value, fieldName);
      assert r == d[..2] + "XXXXXX" + d[8..];
    }
  }

  /** The email branch keeps everything after the first `@` and masks what is before it. */
  lemma RedactEmailBranch(value: string, fieldName: string)
    requires !IsPhoneNumber(value) && !IsAadharNumber(value) && !IsPassportNumber(value) && !IsUpiId(value)
    requires IsEmail(value)
    ensures '@' in value
    ensures var user := Before(value, '@'); var r := Redaction(value, fieldName);
      '@' in r && After(r, '@') == After(value, '@') &&
      Before(r, '@') == if |user| > 2 then Take(user, 2) + "XXX" else "XXX"
  {
    var i, k, d, m :| 0 <= i < |value| && i < k < |value| && k < d < |value| && d < m <= |value| &&
      EmailAt(value, i, k, d, m);
    assert value[k] == '@';
    var user := Before(value, '@');
    var masked := if |user| > 2 then Take(user, 2) + "XXX" else "XXX";
    assert '@' !in masked;
    SplitJoined(masked, '@', After(value, '@'));
  }

  predicate NoDigit(s: string) { forall x | x in s :: !IsDigit(x) }

  lemma NoDigitNoNumber(value: string)
    requires NoDigit(value)
    ensures !IsPhoneNumber(value) && !IsAadharNumber(value) && !IsPassportNumber(value)
  {
    var n := Normalized(value);
    assert NoDigit(Without(value, ' '));
    assert NoDigit(n);
    forall i | 0 <= i <= |n| - 10 ensures !PhoneAt(n, i) {
      assert n[i] in n && n[i..i + 10][0] == n[i];
    }
    AadharIff(value);
    if |n| > 0 {
      assert n[0] in n;
    }
    var t := Upper(value);
    forall i | 0 <= i <= |t| - 8 ensures !PassportAt(t, i) {
      assert value[i + 1] in value && t[i + 1..i + 8][0] == t[i + 1];
    }
  }

  /** The UPI branch keeps everything after the first `@` and masks what is
      before it: as a phone number when it is one, else two characters and `XX`. */
  lemma RedactUpiBranch(value: string, fieldName: string)
    requires !IsPhoneNumber(value) && !IsAadharNumber(value) && !IsPassportNumber(value) && IsUpiId(value)
    ensures '@' in value
    ensures var user := Before(value, '@'); var r := Redaction(value, fieldName);
      '@' in r && After(r, '@') == After(value, '@') &&
      Before(r, '@') == if IsPhoneNumber(user) then Take(user, 2) + "XXXXXX" + TakeLast(user, 2) else Take(user, 2) + "XX"
  {
    var i, k, m :| 0 <= i < |value| && i < k < |value| && k + 1 < m <= |value| && UpiAt(value, i, k, m);
    assert value[k] == '@';
    var user := Before(value, '@');
    var masked := if IsPhoneNumber(user) then Take(user, 2) + "XXXXXX" + TakeLast(user, 2) else Take(user, 2) + "XX";
    assert '@' !in masked by {
      assert user == Take(user, 2) + user[|Take(user, 2)|..];
      assert user == user[..|user| - |TakeLast(user, 2)|] + TakeLast(user, 2);
    }
    SplitJoined(masked, '@', After(value, '@'));
  }

  /** An address of the form word@host with no digit anywhere (`john@gmail.com`)
      matches `is_upi_id` before `is_email` is consulted, so it is masked by
      the UPI branch: two characters and `XX` before the `@`. */
  lemma LetterEmailTakesUpiBranch(value: string, user: string, host: string, rest: string, fieldName: string)
    requires value == user + "@" + host + rest
    requires user != [] && AllOf(user, IsWord)
    requires host != [] && AllOf(host, IsAlnum) && (rest == [] || !IsWord(rest[0]))
    requires NoDigit(value)
    ensures IsUpiId(value)
    ensures var r := Redaction(value, fieldName);
      '@' in r && Before(r, '@') == Take(user, 2) + "XX" && After(r, '@') == host + rest
  {
    var k := |user|;
    var m := k + 1 + |host|;
    assert value == user + ['@'] + (host + rest);
    assert '@' !in user by {
      forall x | x in user ensures x != '@' {
        var j :| 0 <= j < |user| && user[j] == x;
        assert IsWord(user[j]);
      }
    }
    assert value[..k] == user && value[k + 1..m] == host;
    assert value[k] == '@' && value[m - 1] == host[|host| - 1];
    assert m < |value| ==> value[m] == rest[0];
    assert UpiAt(value, 0, k, m);
    SplitJoined(user, '@', host + rest);
    NoDigitNoNumber(value);
    assert NoDigit(user) by {
      forall x | x in user ensures !IsDigit(x) {
        assert x in value;
      }
    }
    NoDigitNoNumber(user);
    RedactUpiBranch(value, fieldName);
  }

  /** The masked words of a full name are again words. */
  lemma MaskedTokensWords(parts: seq<string>)
    requires Words(parts)
    ensures Words(MaskedTokens(parts))
  {
    var masked := MaskedTokens(parts);
    forall i | 0 <= i < |masked| ensures masked[i] != [] && NoSpace(masked[i]) {
      assert masked[i] == MaskedToken(parts[i]);
      if |parts[i]| > 1 {
        assert !IsSpace(parts[i][0]);
      }
    }
  }

  /** The name branch masks each whitespace-separated word and keeps their number. */
  lemma RedactNameBranch(value: string, fieldName: string)
    requires !IsPhoneNumber(value) && !IsAadharNumber(value) && !IsPassportNumber(value) && !IsUpiId(value)
    requires !IsEmail(value) && IsFullName(value)
    ensures var r := Redaction(value, fieldName);
      |Tokens(r)| == |Tokens(value)| &&
      forall i | 0 <= i < |Tokens(value)| :: Tokens(r)[i] == MaskedToken(Tokens(value)[i])
  {
    MaskedTokensWords(Tokens(value));
    TokensOfJoin(MaskedTokens(Tokens(value)));
  }

  // ---------------------------------------------------------------------
  // Properties of the detection passes and of process_record
  // ---------------------------------------------------------------------

  /** Which fields `detect_standalone_pii` lists. */
  lemma StandaloneFieldsExact(data: Record, i: nat)
    requires DistinctKeys(data) && i < |data|
    ensures var key, value := data[i].0, data[i].1; var text := Render(value);
      (key == "phone" ==> (key in StandaloneFields(data) <==> Truthy(value) && IsPhoneNumber(text))) &&
      (key == "aadhar" ==> (key in StandaloneFields(data) <==> Truthy(value) && IsAadharNumber(text))) &&
      (key == "passport" ==> (key in StandaloneFields(data) <==> Truthy(value) && IsPassportNumber(text))) &&
      (key == "upi_id" ==> (key in StandaloneFields(data) <==> Truthy(value) && IsUpiId(text))) &&
      (key !in StandaloneKeys ==> (key in StandaloneFields(data) <==>
        Truthy(value) && (IsPhoneNumber(text) || IsAadharNumber(text) || IsPassportNumber(text) || IsUpiId(text))))
  {
    SelectMember(data, StandaloneHit, i);
  }

  /** The standalone list follows record order and names each field at most once. */
  lemma StandaloneFieldsOrdered(data: Record)
    ensures IsSubsequence(StandaloneFields(data), KeysOf(data))
    ensures DistinctKeys(data) ==> NoDuplicates(StandaloneFields(data))
  {
    SelectOrdered(data, StandaloneHit);
  }

  /** Which fields `detect_combinatorial_pii` lists. */
  lemma CombinatorialFieldsExact(data: Record, i: nat)
    requires DistinctKeys(data) && i < |data|
    ensures var key, value := data[i].0, data[i].1; var text := Render(value);
      (key == "name" ==> (key in CombinatorialFields(data) <==> Truthy(value))) &&
      (key == "first_name" || key == "last_name" ==> (key in CombinatorialFields(data) <==> Truthy(value) && IsFullName(text))) &&
      (key == "email" ==> (key in CombinatorialFields(data) <==> Truthy(value) && IsEmail(text))) &&
      (key == "address" ==> (key in CombinatorialFields(data) <==> Truthy(value) && IsPhysicalAddress(text))) &&
      (key == "device_id" || key == "ip_address" ==> (key in CombinatorialFields(data) <==> Truthy(value) && |text| > 5)) &&
      (key !in {"name", "first_name", "last_name", "email", "address", "device_id", "ip_address"} ==>
        key !in CombinatorialFields(data))
  {
    SelectMember(data, CombinatorialHit, i);
  }

  /** The combinatorial list follows record order and names each field at most once. */
  lemma CombinatorialFieldsOrdered(data: Record)
    ensures IsSubsequence(CombinatorialFields(data), KeysOf(data))
    ensures DistinctKeys(data) ==> NoDuplicates(CombinatorialFields(data))
  {
    SelectOrdered(data, CombinatorialHit);
  }

  /** A field with a falsy value is in neither list and is returned as it was. */
  lemma FalsyFieldUnchanged(data: Record, i: nat)
    requires DistinctKeys(data) && i < |data| && !Truthy(data[i].1)
    ensures data[i].0 !in StandaloneFields(data) && data[i].0 !in CombinatorialFields(data)
    ensures RedactedRecord(data)[i] == data[i]
  {
    SelectMember(data, StandaloneHit, i);
    SelectMember(data, CombinatorialHit, i);
  }

  /** A record without PII is returned unchanged. */
  lemma NotPiiUnchanged(data: Record)
    requires !IsPii(data)
    ensures RedactedRecord(data) == data
  {
    var r := RedactedRecord(data);
    forall i | 0 <= i < |data| ensures r[i] == data[i] {
      assert !Flagged(data, data[i].0);
    }
  }

  /** The result read as a dictionary: the same keys, flagged fields hold the
      mask of their original value and every other field its original value. */
  lemma RedactedRecordGet(data: Record, k: string)
    requires DistinctKeys(data)
    ensures Get(RedactedRecord(data), k).Some? <==> HasKey(data, k)
    ensures HasKey(data, k) ==> (Get(RedactedRecord(data), k).value ==
      if Flagged(data, k) then Str(Redaction(Render(Get(data, k).value), k)) else Get(data, k).value)
  {
    var r := RedactedRecord(data);
    if HasKey(data, k) {
      var i := FirstIndex(KeysOf(data), k);
      assert data[i].0 == k;
      assert DistinctKeys(r) by {
        forall a, b | 0 <= a < b < |r| ensures r[a].0 != r[b].0 {
          assert r[a].0 == data[a].0 && r[b].0 == data[b].0;
        }
      }
      assert Get(r, k) == Some(r[i].1);
      assert Get(data, k) == Some(data[i].1);
    }
  }
}
