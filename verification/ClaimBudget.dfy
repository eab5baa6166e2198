/**
 The byte budget of claim responses, src/evidence/externalScanJobLifecycle.js, and the size of a sealed
 package, src/evidence/externalScanJobOutbox.js: the content is base64 text inside a JSON payload, and
 the encrypted payload is base64 text again (section 4 of RFC 4648). Sizes are counted member by member.
 */
module ClaimBudget {
  import opened Prelude

  type Byte = b: int | 0 <= b < 256 witness 0

  function Digit(n: nat): char
    requires n < 64
  {
    if n < 26 then 'A' + n as char
    else if n < 52 then 'a' + (n - 26) as char
    else if n < 62 then '0' + (n - 52) as char
    else if n == 62 then '+'
    else '/'
  }

  /** The four characters of a group of three bytes. */
  function Group(a: Byte, b: Byte, c: Byte): (text: string)
    ensures |text| == 4
  {
    [Digit(a / 4), Digit(a % 4 * 16 + b / 16), Digit(b % 16 * 4 + c / 64), Digit(c % 64)]
  }

  /** A last group of fewer bytes is padded with equals signs. */
  function Base64(bytes: seq<Byte>): (text: string)
    ensures |text| == Base64Length(|bytes|)
  {
    if |bytes| == 0 then ""
    else if |bytes| == 1 then Group(bytes[0], 0, 0)[..2] + "=="
    else if |bytes| == 2 then Group(bytes[0], bytes[1], 0)[..3] + "="
    else Group(bytes[0], bytes[1], bytes[2]) + Base64(bytes[3..])
  }

  function Base64Length(n: nat): nat {
    4 * ((n + 2) / 3)
  }

  function Value(digit: char): (n: nat)
    ensures n < 64
  {
    if 'A' <= digit <= 'Z' then (digit - 'A') as nat
    else if 'a' <= digit <= 'z' then (digit - 'a') as nat + 26
    else if '0' <= digit <= '9' then (digit - '0') as nat + 52
    else if digit == '+' then 62
    else 63
  }

  function FirstByte(group: string): Byte
    requires |group| == 4
  {
    Value(group[0]) * 4 + Value(group[1]) / 16
  }

  function SecondByte(group: string): Byte
    requires |group| == 4
  {
    Value(group[1]) % 16 * 16 + Value(group[2]) / 4
  }

  function ThirdByte(group: string): Byte
    requires |group| == 4
  {
    Value(group[2]) % 4 * 64 + Value(group[3])
  }

  function GroupBytes(group: string): seq<Byte>
    requires |group| == 4
  {
    if group[2] == '=' then [FirstByte(group)]
    else if group[3] == '=' then [FirstByte(group), SecondByte(group)]
    else [FirstByte(group), SecondByte(group), ThirdByte(group)]
  }

  /** The bytes of a text of whole groups. */
  function Decoded(text: string): seq<Byte>
    requires |text| % 4 == 0
  {
    if text == "" then [] else GroupBytes(text[..4]) + Decoded(text[4..])
  }

  lemma DigitValue(n: nat)
    requires n < 64
    ensures Value(Digit(n)) == n && Digit(n) != '='
  {
  }

  lemma GroupDecodes(a: Byte, b: Byte, c: Byte)
    ensures GroupBytes(Group(a, b, c)) == [a, b, c]
  {
    GroupValues(a, b, c);
  }

  lemma ShortGroupDecodes(a: Byte, b: Byte)
    ensures GroupBytes(Group(a, b, 0)[..3] + "=") == [a, b]
    ensures GroupBytes(Group(a, 0, 0)[..2] + "==") == [a]
  {
    GroupValues(a, b, 0);
    GroupValues(a, 0, 0);
  }

  lemma GroupValues(a: Byte, b: Byte, c: Byte)
    ensures var g := Group(a, b, c);
            && FirstByte(g) == a && SecondByte(g) == b && ThirdByte(g) == c && g[2] != '=' && g[3] != '='
  {
    DigitValue(a / 4);
    DigitValue(a % 4 * 16 + b / 16);
    DigitValue(b % 16 * 4 + c / 64);
    DigitValue(c % 64);
  }

  lemma DecodedMore(group: string, rest: string)
    requires |group| == 4 && |rest| % 4 == 0
    ensures Decoded(group + rest) == GroupBytes(group) + Decoded(rest)
  {
    assert (group + rest)[..4] == group && (group + rest)[4..] == rest;
  }

  lemma LastGroup(bytes: seq<Byte>)
    requires |bytes| <= 2
    ensures |Base64(bytes)| % 4 == 0 && Decoded(Base64(bytes)) == bytes
  {
    if |bytes| > 0 {
      ShortGroupDecodes(bytes[0], if |bytes| == 2 then bytes[1] else 0);
      DecodedMore(Base64(bytes), "");
      assert Base64(bytes) + "" == Base64(bytes);
    }
  }

  predicate Decodes(text: string, bytes: seq<Byte>) {
    |text| % 4 == 0 && Decoded(text) == bytes
  }

  lemma GroupInFront(group: string, rest: string, text: string, bytes: seq<Byte>)
    requires |bytes| >= 3 && |group| == 4 && GroupBytes(group) == bytes[..3] && Decodes(rest, bytes[3..])
    requires text == group + rest
    ensures Decodes(text, bytes)
  {
    DecodedMore(group, rest);
    assert bytes == bytes[..3] + bytes[3..];
  }

  /** Decoding the text gives back the bytes. */
  lemma {:induction false} Base64RoundTrip(bytes: seq<Byte>, text: string)
    requires text == Base64(bytes)
    ensures Decodes(text, bytes)
    decreases |bytes|
  {
    if |bytes| >= 3 {
      var rest := Base64(bytes[3..]);
      Base64RoundTrip(bytes[3..], rest);
      var group := FirstGroup(bytes);
      GroupInFront(group, rest, text, bytes);
    } else {
      LastGroup(bytes);
    }
  }

  lemma FirstGroup(bytes: seq<Byte>) returns (group: string)
    requires |bytes| >= 3
    ensures |group| == 4 && GroupBytes(group) == bytes[..3] && Base64(bytes) == group + Base64(bytes[3..])
  {
    group := Group(bytes[0], bytes[1], bytes[2]);
    GroupDecodes(bytes[0], bytes[1], bytes[2]);
  }

  // ----- the size of a sealed package -----

  /** What of a package varies, and the bounds its fields are checked against: `filename` in UTF-16 units,
      `wrappedKey` in bytes. */
  datatype Package = Package(
    content: nat, version: nat, tenantId: string, filename: seq<nat>, mediaType: string,
    providerId: string, deliveryKeyId: string, wrappedKey: nat)

  const IDENTIFIER_LENGTH: nat := 192
  const FILENAME_LENGTH: nat := 255
  const MEDIA_TYPE_LENGTH: nat := 127
  const HIGHEST_VERSION: nat := 1_000_000

  /** The identifiers, the file name, the media type and the version are checked when evidence comes in and
      when a job is queued. The size of a key is only checked from below; 64 KiB is far past any in use. */
  ghost predicate Admitted(p: Package, evidenceLimit: nat) {
    && p.content <= evidenceLimit && p.version <= HIGHEST_VERSION
    && |p.tenantId| <= IDENTIFIER_LENGTH && |p.providerId| <= IDENTIFIER_LENGTH
    && |p.deliveryKeyId| <= IDENTIFIER_LENGTH
    && |p.filename| <= FILENAME_LENGTH && |p.mediaType| <= MEDIA_TYPE_LENGTH
    && p.wrappedKey <= 65_536
  }

  /** Bytes of a JSON member: the quoted name, a colon and the value. */
  function Member(name: string, valueBytes: nat): nat {
    |name| + 3 + valueBytes
  }

  function Quoted(textBytes: nat): nat {
    textBytes + 2
  }

  function DecimalDigits(n: nat): nat {
    if n < 10 then 1 else 1 + DecimalDigits(n / 10)
  }

  /** Bytes of one UTF-16 unit of a file name in JSON: names hold no quotes, backslashes or control
      characters, so only a surrogate standing alone is escaped. */
  function UnitBytes(unit: nat): (bytes: nat)
    ensures bytes <= 6
  {
    if unit < 0x80 then 1 else if unit < 0x800 then 2 else if 0xD800 <= unit < 0xE000 then 6 else 3
  }

  function TextBytes(units: seq<nat>): (bytes: nat)
    ensures bytes <= 6 * |units|
  {
    if units == [] then 0 else UnitBytes(units[0]) + TextBytes(units[1..])
  }

  const JOB_ID: nat := 39
  const EVIDENCE_ID: nat := 36
  const HEX_DIGEST: nat := 64
  const ISO_TIME: nat := 24
  const CLAIM_TOKEN: nat := 36

  /** `sealPackage`'s payload without the content's own characters. */
  function PayloadMetadata(p: Package): nat {
    2 + 12
    + Member("format", Quoted(|"basitclaw-external-scan-job-payload"|)) + Member("version", 1)
    + Member("jobId", Quoted(JOB_ID)) + Member("tenantId", Quoted(|p.tenantId|))
    + Member("evidenceId", Quoted(EVIDENCE_ID)) + Member("evidenceVersion", DecimalDigits(p.version))
    + Member("contentSha256", Quoted(HEX_DIGEST)) + Member("filename", Quoted(TextBytes(p.filename)))
    + Member("mediaType", Quoted(|p.mediaType|)) + Member("sizeBytes", DecimalDigits(p.content))
    + Member("createdAt", Quoted(ISO_TIME)) + Member("expiresAt", Quoted(ISO_TIME))
    + Member("contentBase64", Quoted(0))
  }

  /** The ciphertext is as long as the payload. */
  function PayloadBytes(p: Package): nat {
    Base64Length(p.content) + PayloadMetadata(p)
  }

  function AadBytes(p: Package): nat {
    |"basitclaw:external-scan-job:"| + JOB_ID + 2 + |p.providerId| + |p.deliveryKeyId|
  }

  /** The sealed package without its ciphertext's own characters. */
  function PackageMetadata(p: Package): nat {
    2 + 13
    + Member("format", Quoted(|"basitclaw-external-scan-sealed-package"|)) + Member("version", 1)
    + Member("algorithm", Quoted(|"rsa-oaep-sha256+aes-256-gcm"|)) + Member("jobId", Quoted(JOB_ID))
    + Member("providerId", Quoted(|p.providerId|)) + Member("deliveryKeyId", Quoted(|p.deliveryKeyId|))
    + Member("createdAt", Quoted(ISO_TIME)) + Member("expiresAt", Quoted(ISO_TIME))
    + Member("aad", Quoted(Base64Length(AadBytes(p)))) + Member("wrappedKey", Quoted(Base64Length(p.wrappedKey)))
    + Member("iv", Quoted(Base64Length(12))) + Member("tag", Quoted(Base64Length(16)))
    + Member("ciphertext", Quoted(0)) + Member("ciphertextSha256", Quoted(HEX_DIGEST))
  }

  function PackageBytes(p: Package): nat {
    Base64Length(PayloadBytes(p)) + PackageMetadata(p)
  }

  /** One job of a claim's response. */
  function EntryBytes(p: Package): nat {
    2 + 3 + Member("jobId", Quoted(JOB_ID)) + Member("claimToken", Quoted(CLAIM_TOKEN))
    + Member("claimExpiresAt", Quoted(ISO_TIME)) + Member("package", PackageBytes(p))
  }

  function EntrySizes(packages: seq<Package>): seq<nat> {
    seq(|packages|, i requires 0 <= i < |packages| => EntryBytes(packages[i]))
  }

  /** A JSON list of entries of these sizes; a comma is counted for every one. */
  function ListBytes(sizes: seq<nat>): nat {
    if sizes == [] then 2 else sizes[0] + 1 + ListBytes(sizes[1..])
  }

  /** A claim's response: who claims, and the jobs. */
  function ResponseBytes(providerId: string, packages: seq<Package>): nat {
    2 + 1 + Member("providerId", Quoted(|providerId|)) + Member("jobs", ListBytes(EntrySizes(packages)))
  }

  // ----- the estimate -----

  const METADATA_ALLOWANCE: nat := 131_072

  /** The estimate for one package of the largest evidence. */
  function EstimatedPackageBytes(evidenceLimit: nat): nat {
    (16 * evidenceLimit + 8) / 9 + METADATA_ALLOWANCE
  }

  function MaximumClaimJobs(byteBudget: nat, evidenceLimit: nat): nat {
    byteBudget / EstimatedPackageBytes(evidenceLimit)
  }

  /** What the configuration admits. */
  predicate ValidBudget(byteBudget: nat, evidenceLimit: nat) {
    1_000_000 <= byteBudget <= 1_000_000_000 && 1 <= evidenceLimit <= 100_000_000
  }

  lemma {:induction false} FewDigits(n: nat, digits: nat)
    requires n < PowerOfTen(digits) && digits >= 1
    ensures DecimalDigits(n) <= digits
    decreases digits
  {
    if n >= 10 {
      FewDigits(n / 10, digits - 1);
    }
  }

  function PowerOfTen(digits: nat): nat {
    if digits == 0 then 1 else 10 * PowerOfTen(digits - 1)
  }

  /** The fields' bounds leave the payload's metadata under three kilobytes. */
  lemma PayloadMetadataBound(p: Package, evidenceLimit: nat)
    requires Admitted(p, evidenceLimit) && evidenceLimit <= 100_000_000
    ensures PayloadMetadata(p) <= 3_000
  {
    assert PowerOfTen(7) == 10_000_000 && PowerOfTen(9) == 1_000_000_000 by {
      assert PowerOfTen(3) == 1_000;
      assert PowerOfTen(6) == 1_000_000;
    }
    FewDigits(p.version, 7);
    FewDigits(p.content, 9);
    NameLengths();
  }

  lemma PackageMetadataBound(p: Package, evidenceLimit: nat)
    requires Admitted(p, evidenceLimit)
    ensures PackageMetadata(p) <= 90_000
  {
    NameLengths();
  }

  lemma NameLengths()
    ensures |"basitclaw-external-scan-job-payload"| == 35 && |"basitclaw-external-scan-sealed-package"| == 38
    ensures |"rsa-oaep-sha256+aes-256-gcm"| == 27 && |"basitclaw:external-scan-job:"| == 28
  {
  }

  /** A job in a response stays under the estimate, with room to spare for the response around it. */
  lemma PackageFits(p: Package, evidenceLimit: nat)
    requires Admitted(p, evidenceLimit) && evidenceLimit <= 100_000_000
    ensures EntryBytes(p) + 1_000 <= EstimatedPackageBytes(evidenceLimit)
  {
    PayloadMetadataBound(p, evidenceLimit);
    PackageMetadataBound(p, evidenceLimit);
    var inner := Base64Length(p.content);
    assert 3 * inner <= 4 * p.content + 8;
    var outer := Base64Length(PayloadBytes(p));
    assert 3 * outer <= 4 * PayloadBytes(p) + 8;
    assert 9 * outer <= 16 * p.content + 32 + 12 * PayloadMetadata(p) + 24;
  }

  lemma {:induction false} TotalBound(sizes: seq<nat>, estimate: nat)
    requires sizes != [] && forall i :: 0 <= i < |sizes| ==> sizes[i] + 1_000 <= estimate
    ensures ListBytes(sizes) + 500 <= |sizes| * estimate
  {
    var rest := sizes[1..];
    if rest != [] {
      TotalBound(rest, estimate);
      OneMore(|rest|, estimate);
    }
  }

  lemma OneMore(n: nat, estimate: nat)
    ensures (n + 1) * estimate == n * estimate + estimate
  {
  }

  /** As many packages as the lifecycle ever lets a claim ask for fit the byte budget, however large. */
  lemma ClaimFitsBudget(providerId: string, packages: seq<Package>, byteBudget: nat, evidenceLimit: nat)
    requires ValidBudget(byteBudget, evidenceLimit) && |providerId| <= IDENTIFIER_LENGTH
    requires |packages| <= MaximumClaimJobs(byteBudget, evidenceLimit)
    requires forall i :: 0 <= i < |packages| ==> Admitted(packages[i], evidenceLimit)
    ensures ResponseBytes(providerId, packages) <= byteBudget
  {
    var estimate, sizes := EstimatedPackageBytes(evidenceLimit), EntrySizes(packages);
    forall i | 0 <= i < |sizes| ensures sizes[i] + 1_000 <= estimate {
      PackageFits(packages[i], evidenceLimit);
    }
    ListFits(sizes, byteBudget, estimate);
  }

  lemma ListFits(sizes: seq<nat>, byteBudget: nat, estimate: nat)
    requires estimate > 0 && |sizes| <= byteBudget / estimate && byteBudget >= 1_000
    requires forall i :: 0 <= i < |sizes| ==> sizes[i] + 1_000 <= estimate
    ensures ListBytes(sizes) + 500 <= byteBudget
  {
    if sizes != [] {
      TotalBound(sizes, estimate);
    }
    TimesMonotone(|sizes|, byteBudget / estimate, estimate);
    QuotientTimes(byteBudget, estimate);
  }

  lemma TimesMonotone(a: nat, b: nat, c: nat)
    requires a <= b
    ensures a * c <= b * c
  {
  }

  lemma QuotientTimes(a: nat, b: nat)
    requires b > 0
    ensures a / b * b <= a
  {
  }

  // ----- the guard on claims -----

  /** A claim request's body as the guard reads it. */
  datatype Body = Unreadable | NotAnObject | NoLimit | Limit(requested: int) | OtherLimit

  datatype Guard = Pass | OverBudget(maximumClaimJobs: nat)

  /** `assertClaimBudget`: only a readable whole-number limit is judged; the outbox rejects the others. */
  function AssertClaimBudget(body: Body, byteBudget: nat, evidenceLimit: nat): (guard: Guard)
    requires MaximumClaimJobs(byteBudget, evidenceLimit) >= 1
  {
    var maximum := MaximumClaimJobs(byteBudget, evidenceLimit);
    match body
    case Limit(requested) => if requested > maximum then OverBudget(maximum) else Pass
    case NoLimit => if 1 > maximum then OverBudget(maximum) else Pass
    case _ => Pass
  }

  /** The estimate is the least whole number of bytes with 131072 to spare over sixteen ninths of the largest
      evidence. */
  lemma EstimateIsLeast(evidenceLimit: nat)
    ensures var spare := EstimatedPackageBytes(evidenceLimit) - 131_072;
            9 * (spare - 1) < 16 * evidenceLimit <= 9 * spare
  {
  }

  /** A claim for a number of jobs is turned away if and only if that many estimates exceed the budget. */
  lemma GuardIff(requested: nat, byteBudget: nat, evidenceLimit: nat)
    requires MaximumClaimJobs(byteBudget, evidenceLimit) >= 1
    ensures AssertClaimBudget(Limit(requested), byteBudget, evidenceLimit).OverBudget? <==>
            requested * EstimatedPackageBytes(evidenceLimit) > byteBudget
    ensures AssertClaimBudget(NoLimit, byteBudget, evidenceLimit).Pass?
  {
    var estimate, maximum := EstimatedPackageBytes(evidenceLimit), MaximumClaimJobs(byteBudget, evidenceLimit);
    QuotientTimes(byteBudget, estimate);
    assert byteBudget < maximum * estimate + estimate;
    OneMore(maximum, estimate);
    if requested > maximum {
      TimesMonotone(maximum + 1, requested, estimate);
    } else {
      TimesMonotone(requested, maximum, estimate);
    }
  }

  /** How many jobs the outbox may hand out for a body: none when it rejects the body. */
  function JobLimit(body: Body): nat {
    match body
    case Limit(requested) => if 1 <= requested <= 25 then requested else 0
    case NoLimit => 1
    case _ => 0
  }

  /** Whatever passes the guard and is handed out fits the budget. */
  lemma GuardedClaimFits(body: Body, providerId: string, packages: seq<Package>, byteBudget: nat, evidenceLimit: nat)
    requires ValidBudget(byteBudget, evidenceLimit) && |providerId| <= IDENTIFIER_LENGTH
    requires MaximumClaimJobs(byteBudget, evidenceLimit) >= 1
    requires AssertClaimBudget(body, byteBudget, evidenceLimit).Pass? && |packages| <= JobLimit(body)
    requires forall i :: 0 <= i < |packages| ==> Admitted(packages[i], evidenceLimit)
    ensures ResponseBytes(providerId, packages) <= byteBudget
  {
    ClaimFitsBudget(providerId, packages, byteBudget, evidenceLimit);
  }
}
