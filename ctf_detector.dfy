/** ctf/detector_full_harinichitra.py: exact masks, and the detection and
    redaction block of `process_csv` for one parsed record. Its standalone
    step looks only at string values of four keys and uses full matches; its
    combination step looks only at which keys are present. */
module CtfDetector {
  import opened Text
  import opened Records

  const RedactedPii := "[REDACTED_PII]"
  const RedactedAddress := "[REDACTED_ADDRESS]"

  const StandaloneKeys: set<string> := {"phone", "aadhar", "passport", "upi_id"}

  /** The keys of `COMBINATORIAL_KEYS`, in their order. */
  const ComboKeys: seq<string> := ["email", "address", "device_id", "ip_address"]

  /** The keys of the name edit. */
  const NameKeys: set<string> := {"name", "first_name", "last_name"}

  // ---------------------------------------------------------------------
  // Masks
  // ---------------------------------------------------------------------

  /** `mask_phone` */
  function MaskPhone(s: string): string
  {
    Take(s, 2) + "XXXXXX" + TakeLast(s, 2)
  }

  /** `mask_aadhaar`: only spaces are removed before the digits are cut. */
  function MaskAadhaar(s: string): string
  {
    var digits := Without(s, ' ');
    Take(digits, 4) + " XXXX XX" + TakeLast(digits, 2)
  }

  /** `mask_passport` */
  function MaskPassport(s: string): string
  {
    Take(s, 4) + "XXXX"
  }

  /** The part before the `@` of a masked UPI id. */
  function MaskUpiLocal(local: string): string
  {
    if IsDecimal(local) && |local| == 10 then MaskPhone(local) else Take(local, 2) + "XX"
  }

  /** `mask_upi` */
  function MaskUpi(s: string): string
  {
    if '@' !in s then RedactedPii
    else MaskUpiLocal(Before(s, '@')) + "@" + After(s, '@')
  }

  /** `mask_email` */
  function MaskEmail(s: string): string
  {
    if '@' !in s then RedactedPii
    else Take(Before(s, '@'), 2) + "XXX" + "@" + After(s, '@')
  }

  /** One half of `mask_name`: the initial and `XXX`, or nothing. */
  function MaskNamePart(part: string): string
  {
    if part != [] then [part[0]] + "XXX" else ""
  }

  /** `mask_name` */
  function MaskName(first: string, last: string): string
  {
    Strip(MaskNamePart(first) + " " + MaskNamePart(last))
  }

  // ---------------------------------------------------------------------
  // Full matches of the compiled patterns
  // ---------------------------------------------------------------------

  /** `PHONE_REGEX.fullmatch`: `\b\d{10}\b` */
  predicate PhoneFull(s: string) { |s| == 10 && AllDigits(s) }

  /** `AADHAAR_REGEX.fullmatch`: `\b\d{4}\s?\d{4}\s?\d{4}\b`. Whitespace and
      digits are disjoint, so each `\s?` takes a whitespace character exactly
      when one follows the group before it. */
  predicate AadhaarFull(s: string)
  {
    |s| >= 4 && AllDigits(s[..4]) &&
    var r := DropSpace(s[4..]);
    |r| >= 4 && AllDigits(r[..4]) &&
    var r' := DropSpace(r[4..]);
    |r'| == 4 && AllDigits(r')
  }

  /** `PASSPORT_REGEX.fullmatch`: `\b[A-Z]{1}\d{7}\b` */
  predicate PassportFull(s: string) { |s| == 8 && IsUpper(s[0]) && AllDigits(s[1..]) }

  /** `[\w.-]` */
  predicate IsUpiChar(c: char) { IsWord(c) || c == '.' || c == '-' }

  /** `UPI_REGEX.fullmatch`: `\b[\w.-]+@[\w.-]+\b`. Neither class holds `@`,
      so the `@` of a match is the first one. */
  predicate UpiFull(s: string)
  {
    '@' in s &&
    var local, domain := Before(s, '@'), After(s, '@');
    local != [] && domain != [] && AllOf(local, IsUpiChar) && AllOf(domain, IsUpiChar) &&
    WordBoundary(s, 0) && WordBoundary(s, |s|)
  }

  // ---------------------------------------------------------------------
  // The per-record block
  // ---------------------------------------------------------------------

  /** The mask the standalone loop writes under key, if its test passes. */
  function StandaloneMask(key: string, value: Value): Option<string>
  {
    match value
    case Str(s) =>
      if key == "phone" && PhoneFull(s) then Some(MaskPhone(s))
      else if key == "aadhar" && AadhaarFull(s) then Some(MaskAadhaar(s))
      else if key == "passport" && PassportFull(s) then Some(MaskPassport(s))
      else if key == "upi_id" && UpiFull(s) then Some(MaskUpi(s))
      else None
    case _ => None
  }

  /** The value under key after the standalone loop. */
  function StandaloneValue(key: string, value: Value): Value
  {
    match StandaloneMask(key, value)
    case Some(m) => Str(m)
    case None => value
  }

  /** The record after the standalone loop. */
  function StandaloneRedacted(data: Record): (r: Record)
    ensures |r| == |data| && KeysOf(r) == KeysOf(data)
  {
    seq(|data|, i requires 0 <= i < |data| => (data[i].0, StandaloneValue(data[i].0, data[i].1)))
  }

  /** `standalone_pii_found` after the loop. */
  predicate StandaloneFound(data: Record)
  {
    exists i | 0 <= i < |data| :: StandaloneMask(data[i].0, data[i].1).Some?
  }

  /** The keys among keys that data holds, in the order of keys. */
  function PresentKeys(data: Record, keys: seq<string>): (present: seq<string>)
    ensures forall x :: x in present <==> x in keys && HasKey(data, x)
  {
    if keys == [] then []
    else PresentKeys(data, keys[..|keys| - 1]) + (if HasKey(data, keys[|keys| - 1]) then [keys[|keys| - 1]] else [])
  }

  /** One more key of a loop over the keys. */
  lemma PresentKeysStep(data: Record, keys: seq<string>, i: nat)
    requires i < |keys|
    ensures PresentKeys(data, keys[..i + 1]) == PresentKeys(data, keys[..i]) + (if HasKey(data, keys[i]) then [keys[i]] else [])
  {
    assert keys[..i + 1][..i] == keys[..i];
  }

  lemma {:induction false} PresentKeysNone(data: Record, keys: seq<string>)
    requires forall k | k in keys :: !HasKey(data, k)
    ensures PresentKeys(data, keys) == []
  {
    if keys != [] {
      PresentKeysNone(data, keys[..|keys| - 1]);
    }
  }

  /** `combinatorial_hits`: `name` when both name halves are keys, then each
      combinatorial key that data holds. */
  function CombinatorialHits(data: Record): seq<string>
  {
    (if HasKey(data, "first_name") && HasKey(data, "last_name") then ["name"] else []) + PresentKeys(data, ComboKeys)
  }

  /** An argument of `mask_name`: a string as it is, a falsy non-string as the
      empty string, and None for a truthy non-string, which `first_name[0]`
      cannot index (a TypeError). */
  function NameArg(v: Value): Option<string>
  {
    match v
    case Str(s) => Some(s)
    case _ => if Truthy(v) then None else Some("")
  }

  /** The name step: `name` set from the halves, which are then deleted. */
  function MergeName(data: Record, r: Record): Option<Record>
  {
    var first := NameArg(GetOr(data, "first_name", Str("")));
    var last := NameArg(GetOr(data, "last_name", Str("")));
    if first.None? || last.None? then None
    else
      var named := Put(r, "name", Str(MaskName(first.value, last.value)));
      var noFirst := if HasKey(named, "first_name") then Delete(named, "first_name") else named;
      Some(if HasKey(noFirst, "last_name") then Delete(noFirst, "last_name") else noFirst)
  }

  /** The email step: `mask_email(data['email'])`, a TypeError for a non-string. */
  function MaskEmailField(data: Record, r: Record): Option<Record>
    requires HasKey(data, "email")
  {
    match Get(data, "email").value
    case Str(s) => Some(Put(r, "email", Str(MaskEmail(s))))
    case _ => None
  }

  /** The fixed markers written over the address, the device id and the IP address. */
  function OverwriteMarkers(r: Record, hits: seq<string>): Record
  {
    var a := if "address" in hits then Put(r, "address", Str(RedactedAddress)) else r;
    var b := if "device_id" in hits then Put(a, "device_id", Str(RedactedPii)) else a;
    if "ip_address" in hits then Put(b, "ip_address", Str(RedactedPii)) else b
  }

  /** The edits made when the combination fires, None for a TypeError. */
  function CombinationRedacted(data: Record, r: Record, hits: seq<string>): Option<Record>
  {
    var named := if "name" in hits then MergeName(data, r) else Some(r);
    if named.None? then None
    else
      var mailed := if "email" in hits && HasKey(data, "email") then MaskEmailField(data, named.value) else named;
      if mailed.None? then None
      else Some(OverwriteMarkers(mailed.value, hits))
  }

  /** The row for one record, or the TypeError that ends the run. */
  datatype Outcome = Ok(redacted: Record, isPii: bool) | TypeError

  /** What the block computes for one parsed record. */
  function Redacted(data: Record): Outcome
  {
    var r := StandaloneRedacted(data);
    var hits := CombinatorialHits(data);
    if |hits| < 2 then Ok(r, StandaloneFound(data))
    else
      match CombinationRedacted(data, r, hits)
      case Some(r') => Ok(r', true)
      case None => TypeError
  }

  /** r is data after the first i iterations of the standalone loop. */
  predicate StandaloneUpTo(data: Record, r: Record, i: nat)
  {
    |r| == |data| &&
    forall j | 0 <= j < |data| :: r[j] == if j < i then (data[j].0, StandaloneValue(data[j].0, data[j].1)) else data[j]
  }

  /** One iteration of the standalone loop. */
  lemma StandaloneStep(data: Record, r: Record, i: nat)
    requires DistinctKeys(data) && i < |data| && StandaloneUpTo(data, r, i)
    ensures var m := StandaloneMask(data[i].0, data[i].1);
      StandaloneUpTo(data, if m.Some? then Put(r, data[i].0, Str(m.value)) else r, i + 1)
  {
    var m := StandaloneMask(data[i].0, data[i].1);
    if m.Some? {
      assert KeysOf(data)[i] == data[i].0;
      PutAligned(data, r, data[i].0, Str(m.value));
    }
  }

  /** Step 1 of the block: the standalone loop. */
  method RedactStandalone(data: Record) returns (redacted: Record, standalonePiiFound: bool)
    requires DistinctKeys(data)
    ensures redacted == StandaloneRedacted(data)
    ensures standalonePiiFound == StandaloneFound(data)
  {
    redacted := data;
    standalonePiiFound := false;
    for i := 0 to |data|
      invariant StandaloneUpTo(data, redacted, i)
      invariant standalonePiiFound <==> exists j | 0 <= j < i :: StandaloneMask(data[j].0, data[j].1).Some?
    {
      StandaloneStep(data, redacted, i);
      var (key, value) := data[i];
      if !value.Str? {
        continue;
      }
      var s := value.s;
      if key == "phone" && PhoneFull(s) {
        redacted := Put(redacted, key, Str(MaskPhone(s)));
        standalonePiiFound := true;
      } else if key == "aadhar" && AadhaarFull(s) {
        redacted := Put(redacted, key, Str(MaskAadhaar(s)));
        standalonePiiFound := true;
      } else if key == "passport" && PassportFull(s) {
        redacted := Put(redacted, key, Str(MaskPassport(s)));
        standalonePiiFound := true;
      } else if key == "upi_id" && UpiFull(s) {
        redacted := Put(redacted, key, Str(MaskUpi(s)));
        standalonePiiFound := true;
      }
    }
  }

  /** The loop over `COMBINATORIAL_KEYS`: each key that data holds is appended to hits. */
  method AppendPresentKeys(data: Record, hits: seq<string>, keys: seq<string>) returns (hits': seq<string>)
    ensures hits' == hits + PresentKeys(data, keys)
  {
    hits' := hits;
    for i := 0 to |keys|
      invariant hits' == hits + PresentKeys(data, keys[..i])
    {
      PresentKeysStep(data, keys, i);
      if HasKey(data, keys[i]) {
        hits' := hits' + [keys[i]];
      }
    }
    assert keys[..|keys|] == keys;
  }

  /** Step 2 of the block: the combinatorial hits. */
  method FindCombinatorialHits(data: Record) returns (combinatorialHits: seq<string>)
    ensures combinatorialHits == CombinatorialHits(data)
  {
    combinatorialHits := [];
    if HasKey(data, "first_name") && HasKey(data, "last_name") {
      combinatorialHits := combinatorialHits + ["name"];
    }
    combinatorialHits := AppendPresentKeys(data, combinatorialHits, ComboKeys);
  }

  /** The name edit of step 3; None for a TypeError. */
  method RedactName(data: Record, r: Record) returns (result: Option<Record>)
    ensures result == MergeName(data, r)
  {
    var first := NameArg(GetOr(data, "first_name", Str("")));
    var last := NameArg(GetOr(data, "last_name", Str("")));
    if first.None? || last.None? {
      return None;
    }
    var redacted := Put(r, "name", Str(MaskName(first.value, last.value)));
    if HasKey(redacted, "first_name") {
      redacted := Delete(redacted, "first_name");
    }
    if HasKey(redacted, "last_name") {
      redacted := Delete(redacted, "last_name");
    }
    return Some(redacted);
  }

  /** The fixed markers of step 3. */
  method WriteMarkers(r: Record, combinatorialHits: seq<string>) returns (redacted: Record)
    ensures redacted == OverwriteMarkers(r, combinatorialHits)
  {
    redacted := r;
    if "address" in combinatorialHits {
      redacted := Put(redacted, "address", Str(RedactedAddress));
    }
    if "device_id" in combinatorialHits {
      redacted := Put(redacted, "device_id", Str(RedactedPii));
    }
    if "ip_address" in combinatorialHits {
      redacted := Put(redacted, "ip_address", Str(RedactedPii));
    }
  }

  /** Step 3 of the block: the edits when the combination fires; None for a TypeError. */
  method RedactCombination(data: Record, r: Record, combinatorialHits: seq<string>) returns (result: Option<Record>)
    ensures result == CombinationRedacted(data, r, combinatorialHits)
  {
    var redacted := r;
    if "name" in combinatorialHits {
      var named := RedactName(data, redacted);
      if named.None? {
        return None;
      }
      redacted := named.value;
    }
    if "email" in combinatorialHits && HasKey(data, "email") {
      var email := Get(data, "email").value;
      if !email.Str? {
        return None;
      }
      redacted := Put(redacted, "email", Str(MaskEmail(email.s)));
    }
    redacted := WriteMarkers(redacted, combinatorialHits);
    return Some(redacted);
  }

  /** The block of `process_csv` for one parsed record. */
  method RedactRecord(data: Record) returns (outcome: Outcome)
    requires DistinctKeys(data)
    ensures outcome == Redacted(data)
  {
    var isPiiFound := false;
    var redacted, standalonePiiFound := RedactStandalone(data);
    if standalonePiiFound {
      isPiiFound := true;
    }
    var combinatorialHits := FindCombinatorialHits(data);
    if |combinatorialHits| >= 2 {
      isPiiFound := true;
      var combined := RedactCombination(data, redacted, combinatorialHits);
      if combined.None? {
        return TypeError;
      }
      redacted := combined.value;
    }
    return Ok(redacted, isPiiFound);
  }

  // ---------------------------------------------------------------------
  // Properties of the masks
  // ---------------------------------------------------------------------

  /** `mask_phone` on 10 characters keeps positions 0, 1, 8 and 9 and puts `X` at 2 to 7. */
  lemma MaskPhoneShape(s: string)
    requires |s| == 10
    ensures var r := MaskPhone(s);
      |r| == 10 && r[0] == s[0] && r[1] == s[1] && r[8] == s[8] && r[9] == s[9] &&
      forall i | 2 <= i < 8 :: r[i] == 'X'
  {
    var r := MaskPhone(s);
    assert r == s[..2] + "XXXXXX" + s[8..];
  }

  /** Masking a masked phone number again changes nothing. */
  lemma MaskPhoneIdempotent(s: string)
    requires |s| >= 2
    ensures MaskPhone(MaskPhone(s)) == MaskPhone(s)
  {
    var r := MaskPhone(s);
    assert r == s[..2] + "XXXXXX" + s[|s| - 2..];
    assert r[..2] == s[..2] && r[8..] == s[|s| - 2..];
  }

  /** The groups of a full Aadhaar match: four digits first and four digits
      last, between 12 and 14 characters in all. */
  lemma AadhaarGroups(s: string)
    requires AadhaarFull(s)
    ensures 12 <= |s| <= 14 && AllDigits(s[..4]) && AllDigits(s[|s| - 4..])
  {
    var r := DropSpace(s[4..]);
    var r' := DropSpace(r[4..]);
    assert r' == s[|s| - 4..];
  }

  /** `mask_aadhaar` on a full match keeps the first four and the last two
      digits, whatever separates the groups, in 14 characters. */
  lemma MaskAadhaarShape(s: string)
    requires AadhaarFull(s)
    ensures MaskAadhaar(s) == s[..4] + " XXXX XX" + s[|s| - 2..]
    ensures |MaskAadhaar(s)| == 14
  {
    AadhaarGroups(s);
    var head, mid, tail := s[..4], s[4..|s| - 2], s[|s| - 2..];
    assert s == head + mid + tail;
    assert ' ' !in head;
    assert ' ' !in tail by {
      assert tail == s[|s| - 4..][2..];
    }
    WithoutAppend(head + mid, tail, ' ');
    WithoutAppend(head, mid, ' ');
    WithoutAbsent(head, ' ');
    WithoutAbsent(tail, ' ');
    var digits := Without(s, ' ');
    assert digits == head + Without(mid, ' ') + tail;
    assert Take(digits, 4) == head;
    assert TakeLast(digits, 2) == tail;
  }

  /** `mask_passport` on a full match keeps the letter and three digits and
      the length of eight. */
  lemma MaskPassportShape(s: string)
    requires PassportFull(s)
    ensures var r := MaskPassport(s); |r| == 8 && r[..4] == s[..4] && r[4..] == "XXXX"
  {
    assert MaskPassport(s) == s[..4] + "XXXX";
  }

  /** `mask_upi`: the marker without an `@`; otherwise what follows the first
      `@` is kept, and what precedes it is masked as a phone number when it
      is exactly 10 digits, else cut to two characters and `XX`. */
  lemma MaskUpiParts(s: string)
    ensures '@' !in s ==> MaskUpi(s) == RedactedPii
    ensures '@' in s ==> var local := Before(s, '@'); var r := MaskUpi(s);
      '@' in r && After(r, '@') == After(s, '@') &&
      Before(r, '@') == if IsDecimal(local) && |local| == 10 then MaskPhone(local) else Take(local, 2) + "XX"
  {
    if '@' in s {
      var local := Before(s, '@');
      assert '@' !in MaskUpiLocal(local) by {
        assert local == Take(local, 2) + local[|Take(local, 2)|..];
        assert local == local[..|local| - |TakeLast(local, 2)|] + TakeLast(local, 2);
      }
      SplitJoined(MaskUpiLocal(local), '@', After(s, '@'));
    }
  }

  /** `mask_email`: the marker without an `@`; otherwise two characters and
      `XXX` before the first `@`, and what follows it unchanged. */
  lemma MaskEmailParts(s: string)
    ensures '@' !in s ==> MaskEmail(s) == RedactedPii
    ensures '@' in s ==> var r := MaskEmail(s);
      '@' in r && Before(r, '@') == Take(Before(s, '@'), 2) + "XXX" && After(r, '@') == After(s, '@')
  {
    if '@' in s {
      var local := Before(s, '@');
      assert '@' !in Take(local, 2) + "XXX" by {
        assert local == Take(local, 2) + local[|Take(local, 2)|..];
      }
      SplitJoined(Take(local, 2) + "XXX", '@', After(s, '@'));
    }
  }

  /** `mask_name` for halves that do not start with whitespace (which
      `strip()` would remove). */
  lemma MaskNameCases(first: string, last: string)
    ensures first != [] && last != [] && !IsSpace(first[0]) ==>
      MaskName(first, last) == [first[0]] + "XXX " + [last[0]] + "XXX"
    ensures first != [] && last == [] && !IsSpace(first[0]) ==> MaskName(first, last) == [first[0]] + "XXX"
    ensures first == [] && last != [] && !IsSpace(last[0]) ==> MaskName(first, last) == [last[0]] + "XXX"
    ensures first == [] && last == [] ==> MaskName(first, last) == ""
  {
    var joined := MaskNamePart(first) + " " + MaskNamePart(last);
    if first != [] && !IsSpace(first[0]) {
      assert joined[0] == first[0];
      if last != [] {
        assert joined == [first[0]] + "XXX " + [last[0]] + "XXX";
        StripNone(joined);
      } else {
        assert joined == [first[0]] + "XXX" + " ";
        assert DropSpaces(joined) == joined;
        assert DropTrailingSpaces(joined[..4]) == joined[..4];
      }
    }
    if first == [] {
      var w := MaskNamePart(last);
      assert joined == " " + w && joined[1..] == w;
      if last != [] && !IsSpace(last[0]) {
        StripNone(w);
      }
    }
  }

  // ---------------------------------------------------------------------
  // Properties of the per-record block
  // ---------------------------------------------------------------------

  /** After the standalone loop: a masked value exactly where the full-match
      test of the field's own key passes, every other value as it was. */
  lemma StandaloneRedactedGet(data: Record, k: string)
    requires DistinctKeys(data)
    ensures Get(StandaloneRedacted(data), k) == if HasKey(data, k) then Some(StandaloneValue(k, Get(data, k).value)) else None
    ensures k !in StandaloneKeys ==> Get(StandaloneRedacted(data), k) == Get(data, k)
  {
    var r := StandaloneRedacted(data);
    GetAligned(data, r, k);
    if HasKey(data, k) {
      var i := FirstIndex(KeysOf(data), k);
      assert data[i].0 == k;
    }
  }

  /** The hits depend only on which keys are present. */
  lemma HitsFromPresence(data: Record)
    ensures var hits := CombinatorialHits(data);
      ("name" in hits <==> HasKey(data, "first_name") && HasKey(data, "last_name")) &&
      (forall k | k in ComboKeys :: k in hits <==> HasKey(data, k)) &&
      (forall h | h in hits :: h == "name" || h in ComboKeys)
  {
    assert "name" !in ComboKeys;
  }

  /** The name pair by itself is one hit, and one hit does not fire. */
  lemma NamePairAloneDoesNotFire(data: Record)
    requires forall k | k in ComboKeys :: !HasKey(data, k)
    ensures |CombinatorialHits(data)| <= 1
    ensures Redacted(data) == Ok(StandaloneRedacted(data), StandaloneFound(data))
  {
    PresentKeysNone(data, ComboKeys);
  }

  /** The flag, and when the run stops with a TypeError. */
  lemma OutcomeCases(data: Record)
    ensures var hits := CombinatorialHits(data);
      Redacted(data).Ok? ==> (Redacted(data).isPii <==> StandaloneFound(data) || |hits| >= 2)
    ensures var hits := CombinatorialHits(data);
      Redacted(data) == TypeError <==> (|hits| >= 2 &&
        ((HasKey(data, "first_name") && HasKey(data, "last_name") &&
          (NameArg(Get(data, "first_name").value).None? || NameArg(Get(data, "last_name").value).None?)) ||
         (HasKey(data, "email") && !Get(data, "email").value.Str?)))
  {
    HitsFromPresence(data);
  }

  lemma MarkersGet(r: Record, hits: seq<string>, k: string)
    ensures Get(OverwriteMarkers(r, hits), k) ==
      if k == "address" && k in hits then Some(Str(RedactedAddress))
      else if (k == "device_id" || k == "ip_address") && k in hits then Some(Str(RedactedPii))
      else Get(r, k)
  {
  }

  lemma MergeNameGet(data: Record, r: Record, k: string)
    requires MergeName(data, r).Some?
    ensures var first := NameArg(GetOr(data, "first_name", Str("")));
      var last := NameArg(GetOr(data, "last_name", Str("")));
      first.Some? && last.Some? &&
      Get(MergeName(data, r).value, k) ==
        if k == "name" then Some(Str(MaskName(first.value, last.value)))
        else if k == "first_name" || k == "last_name" then None
        else Get(r, k)
  {
  }

  /** The markers and the email mask that the combination step writes. */
  lemma CombinationMarkers(data: Record, r: Record, hits: seq<string>)
    requires CombinationRedacted(data, r, hits).Some?
    ensures var out := CombinationRedacted(data, r, hits).value;
      ("address" in hits ==> Get(out, "address") == Some(Str(RedactedAddress))) &&
      ("device_id" in hits ==> Get(out, "device_id") == Some(Str(RedactedPii))) &&
      ("ip_address" in hits ==> Get(out, "ip_address") == Some(Str(RedactedPii))) &&
      ("email" in hits && HasKey(data, "email") ==>
        Get(data, "email").value.Str? && Get(out, "email") == Some(Str(MaskEmail(Get(data, "email").value.s))))
  {
    var named := if "name" in hits then MergeName(data, r) else Some(r);
    var mailed := if "email" in hits && HasKey(data, "email") then MaskEmailField(data, named.value) else named;
    MarkersGet(mailed.value, hits, "address");
    MarkersGet(mailed.value, hits, "device_id");
    MarkersGet(mailed.value, hits, "ip_address");
    MarkersGet(mailed.value, hits, "email");
  }

  /** The name edit as the combination step leaves it. */
  lemma CombinationName(data: Record, r: Record, hits: seq<string>)
    requires "name" in hits && CombinationRedacted(data, r, hits).Some?
    ensures var out := CombinationRedacted(data, r, hits).value;
      var first := NameArg(GetOr(data, "first_name", Str("")));
      var last := NameArg(GetOr(data, "last_name", Str("")));
      !HasKey(out, "first_name") && !HasKey(out, "last_name") &&
      first.Some? && last.Some? && Get(out, "name") == Some(Str(MaskName(first.value, last.value)))
  {
    var named := MergeName(data, r);
    assert named.Some?;
    var mailed := if "email" in hits && HasKey(data, "email") then MaskEmailField(data, named.value) else named;
    assert mailed.Some?;
    var out := OverwriteMarkers(mailed.value, hits);
    assert CombinationRedacted(data, r, hits).value == out;
    MergeNameGet(data, r, "name");
    MergeNameGet(data, r, "first_name");
    MergeNameGet(data, r, "last_name");
    if "email" in hits && HasKey(data, "email") {
      EmailFieldGet(data, named.value, "name");
      EmailFieldGet(data, named.value, "first_name");
      EmailFieldGet(data, named.value, "last_name");
    }
    MarkersGet(mailed.value, hits, "name");
    MarkersGet(mailed.value, hits, "first_name");
    MarkersGet(mailed.value, hits, "last_name");
  }

  /** When the combination fires, the markers and the email mask are in place. */
  lemma CombinationEffects(data: Record)
    requires |CombinatorialHits(data)| >= 2 && Redacted(data).Ok?
    ensures var out := Redacted(data).redacted;
      Redacted(data).isPii &&
      (HasKey(data, "address") ==> Get(out, "address") == Some(Str(RedactedAddress))) &&
      (HasKey(data, "device_id") ==> Get(out, "device_id") == Some(Str(RedactedPii))) &&
      (HasKey(data, "ip_address") ==> Get(out, "ip_address") == Some(Str(RedactedPii))) &&
      (HasKey(data, "email") ==>
        Get(data, "email").value.Str? && Get(out, "email") == Some(Str(MaskEmail(Get(data, "email").value.s))))
  {
    HitsFromPresence(data);
    CombinationMarkers(data, StandaloneRedacted(data), CombinatorialHits(data));
  }

  /** When the combination fires with the name pair, the halves are gone and
      `name` holds their mask. */
  lemma NameMerged(data: Record)
    requires |CombinatorialHits(data)| >= 2 && Redacted(data).Ok?
    requires HasKey(data, "first_name") && HasKey(data, "last_name")
    ensures var out := Redacted(data).redacted;
      var first := NameArg(Get(data, "first_name").value);
      var last := NameArg(Get(data, "last_name").value);
      !HasKey(out, "first_name") && !HasKey(out, "last_name") &&
      first.Some? && last.Some? && Get(out, "name") == Some(Str(MaskName(first.value, last.value)))
  {
    HitsFromPresence(data);
    CombinationName(data, StandaloneRedacted(data), CombinatorialHits(data));
  }

  /** A key the combination step does not flag leaves the block as the
      standalone loop left it: a key outside the combination keys, a
      combinatorial key the record does not hold, or one of `name`,
      `first_name` and `last_name` without the name pair. If it is not a
      standalone key either (a 10-digit number under any other key, say), it
      keeps its input value. */
  lemma UntouchedKeys(data: Record, k: string)
    requires DistinctKeys(data) && Redacted(data).Ok?
    requires k in ComboKeys ==> !HasKey(data, k)
    requires k in NameKeys ==> !(HasKey(data, "first_name") && HasKey(data, "last_name"))
    ensures Get(Redacted(data).redacted, k) == Get(StandaloneRedacted(data), k)
    ensures k !in StandaloneKeys ==> Get(Redacted(data).redacted, k) == Get(data, k)
  {
    StandaloneRedactedGet(data, k);
    var hits := CombinatorialHits(data);
    if |hits| >= 2 {
      HitsFromPresence(data);
      CombinationGet(data, StandaloneRedacted(data), hits, k);
    }
  }

  /** The email step writes only `email`. */
  lemma EmailFieldGet(data: Record, r: Record, k: string)
    requires HasKey(data, "email") && MaskEmailField(data, r).Some? && k != "email"
    ensures Get(MaskEmailField(data, r).value, k) == Get(r, k)
  {
  }

  /** The combination step writes only the keys it flags: the combinatorial
      keys among the hits, and the name keys when `name` is a hit. */
  lemma CombinationGet(data: Record, r: Record, hits: seq<string>, k: string)
    requires CombinationRedacted(data, r, hits).Some?
    requires k in ComboKeys ==> k !in hits
    requires k in NameKeys ==> "name" !in hits
    ensures Get(CombinationRedacted(data, r, hits).value, k) == Get(r, k)
  {
    var named := if "name" in hits then MergeName(data, r) else Some(r);
    var mailed := if "email" in hits && HasKey(data, "email") then MaskEmailField(data, named.value) else named;
    if "name" in hits {
      MergeNameGet(data, r, k);
    }
    if "email" in hits && HasKey(data, "email") {
      EmailFieldGet(data, named.value, k);
    }
    MarkersGet(mailed.value, hits, k);
  }
}
