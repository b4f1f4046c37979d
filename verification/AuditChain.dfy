// The audit hash chain of crates/agent-core/src/security.rs.
//
// The newline-joined preimage and the hexadecimal text are concrete; the 32-byte digest is a
// parameter about which nothing is assumed but its length, so the binding theorem is a
// reduction: chains that disagree behind one hash exhibit two texts with the same digest.
module AuditChain {
  import opened Wrappers
  import opened SecurityTypes

  type Byte = b: int | 0 <= b < 256

  // SHA-256 of a text, or any other function with a 32-byte result.
  type Digest = string -> seq<Byte>

  ghost predicate Produces32Bytes(digest: Digest) {
    forall text :: |digest(text)| == 32
  }

  datatype AuditEvent = AuditEvent(
    eventId: string, timestamp: Instant, tenantId: string, deviceId: string, principal: string,
    action: Action, resource: Resource, target: string, paramsDigest: string, result: string,
    traceId: string, prevHash: string, hash: string)

  // ------------------------------------------------------------ hexadecimal

  function HexPair(byte: Byte): (pair: string)
    ensures |pair| == 2 && forall c | c in pair :: c in HEX
  {
    [HEX[byte / 16], HEX[byte % 16]]
  }

  function Hex(bytes: seq<Byte>): (text: string)
    ensures |text| == 2 * |bytes|
    ensures forall c | c in text :: c in HEX
  {
    if bytes == [] then ""
    else HexPair(bytes[0]) + Hex(bytes[1..])
  }

  lemma {:induction false} HexSnoc(bytes: seq<Byte>, last: Byte)
    ensures Hex(bytes + [last]) == Hex(bytes) + HexPair(last)
  {
    hide HexPair;
    if bytes == [] {
      assert bytes + [last] == [last];
    } else {
      assert (bytes + [last])[1..] == bytes[1..] + [last];
      HexSnoc(bytes[1..], last);
    }
  }

  // Two digits per byte, the high half first.
  lemma {:induction false} HexDigitsOf(bytes: seq<Byte>, i: nat)
    requires i < |bytes|
    ensures Hex(bytes)[2 * i] == "0123456789abcdef"[bytes[i] / 16]
    ensures Hex(bytes)[2 * i + 1] == "0123456789abcdef"[bytes[i] % 16]
  {
    if i == 0 {
    } else {
      HexDigitsOf(bytes[1..], i - 1);
      assert Hex(bytes)[2..] == Hex(bytes[1..]);
    }
  }

  lemma HexDigitsDiffer(i: nat, j: nat)
    requires i < 16 && j < 16 && HEX[i] == HEX[j]
    ensures i == j
  {
  }

  lemma HexPairIsInjective(a: Byte, b: Byte)
    requires HexPair(a) == HexPair(b)
    ensures a == b
  {
    assert HexPair(a)[0] == HexPair(b)[0] && HexPair(a)[1] == HexPair(b)[1];
    HexDigitsDiffer(a / 16, b / 16);
    HexDigitsDiffer(a % 16, b % 16);
  }

  lemma {:induction false} HexIsInjective(a: seq<Byte>, b: seq<Byte>)
    requires Hex(a) == Hex(b)
    ensures a == b
  {
    if a == [] || b == [] {
    } else {
      hide HexPair;
      assert Hex(a)[..2] == HexPair(a[0]) && Hex(b)[..2] == HexPair(b[0]);
      HexPairIsInjective(a[0], b[0]);
      assert Hex(a)[2..] == Hex(a[1..]) && Hex(b)[2..] == Hex(b[1..]);
      HexIsInjective(a[1..], b[1..]);
    }
  }

  method HexEncode(bytes: seq<Byte>) returns (output: string)
    ensures output == Hex(bytes)
  {
    output := "";
    for i := 0 to |bytes|
      invariant output == Hex(bytes[..i])
    {
      HexSnoc(bytes[..i], bytes[i]);
      assert bytes[..i] + [bytes[i]] == bytes[..i + 1];
      output := output + [HEX[bytes[i] / 16]];
      output := output + [HEX[bytes[i] % 16]];
    }
    assert bytes[..|bytes|] == bytes;
  }

  // ---------------------------------------------------------- decimal numerals

  const DIGITS := "0123456789"

  function Decimal(n: nat): (text: string)
    ensures text != "" && forall c | c in text :: c in DIGITS
  {
    if n < 10 then [DIGITS[n]] else Decimal(n / 10) + [DIGITS[n % 10]]
  }

  // The number a text of digits stands for.
  function NumeralValue(text: string): int {
    if text == "" then 0
    else 10 * NumeralValue(text[..|text| - 1]) + (text[|text| - 1] as int - '0' as int)
  }

  // A numeral stands for its number and has no leading zero.
  lemma {:induction false} DecimalReadsBack(n: nat)
    ensures NumeralValue(Decimal(n)) == n && (Decimal(n)[0] == '0' ==> n == 0)
  {
    if n < 10 {
      assert Decimal(n)[..0] == "";
    } else {
      DecimalReadsBack(n / 10);
      assert Decimal(n)[..|Decimal(n)| - 1] == Decimal(n / 10);
    }
  }

  lemma {:induction false} DecimalIsInjective(m: nat, n: nat)
    requires Decimal(m) == Decimal(n)
    ensures m == n
  {
    var a, b := Decimal(m), Decimal(n);
    assert a[|a| - 1] == DIGITS[m % 10] && b[|b| - 1] == DIGITS[n % 10];
    assert m % 10 == n % 10;
    if m < 10 || n < 10 {
    } else {
      assert a[..|a| - 1] == Decimal(m / 10) && b[..|b| - 1] == Decimal(n / 10);
      DecimalIsInjective(m / 10, n / 10);
    }
  }

  // Milliseconds since the epoch; an instant before the epoch counts as 0.
  function TimestampMs(t: Instant): nat {
    if t < 0 then 0 else t / 1_000_000
  }

  // ------------------------------------------------------ names of the enums

  function ActionText(action: Action): string {
    match action
    case Read => "Read"
    case Execute => "Execute"
    case Write => "Write"
    case Manage => "Manage"
  }

  function ResourceText(resource: Resource): string {
    match resource
    case Telemetry => "Telemetry"
    case ControlCommand => "ControlCommand"
    case FileTransfer => "FileTransfer"
    case Configuration => "Configuration"
    case Upgrade => "Upgrade"
    case AppControl => "AppControl"
    case SecurityPolicy => "SecurityPolicy"
  }

  lemma ActionTextIsInjective(a: Action, b: Action)
    ensures ActionText(a) == ActionText(b) <==> a == b
  {
    assert ActionText(a)[0] == ActionText(b)[0] ==> a == b;
  }

  lemma ResourceTextIsInjective(a: Resource, b: Resource)
    ensures ResourceText(a) == ResourceText(b) <==> a == b
  {
    var x, y := ResourceText(a), ResourceText(b);
    assert x[0] == y[0] && x[3] == y[3] ==> a == b;
  }

  // ----------------------------------------------------------------- preimage

  function JoinLines(fields: seq<string>): string
    requires fields != []
  {
    if |fields| == 1 then fields[0] else fields[0] + "\n" + JoinLines(fields[1..])
  }

  function HashedFields(prevHash: string, e: AuditEvent): seq<string> {
    [prevHash, e.eventId, Decimal(TimestampMs(e.timestamp)), e.tenantId, e.deviceId, ActionText(e.action),
     ResourceText(e.resource), e.target, e.paramsDigest, e.result, e.traceId]
  }

  function Preimage(prevHash: string, e: AuditEvent): string {
    JoinLines(HashedFields(prevHash, e))
  }

  function CalculateHash(digest: Digest, e: AuditEvent, prevHash: string): string {
    Hex(digest(Preimage(prevHash, e)))
  }

  lemma NextLine(before: string, fields: seq<string>, k: nat) returns (text: string)
    requires k + 1 < |fields|
    ensures text == before + fields[k] + "\n"
    ensures text + JoinLines(fields[k + 1..]) == before + JoinLines(fields[k..])
  {
    text := before + fields[k] + "\n";
    assert fields[k..][1..] == fields[k + 1..];
    assert text + JoinLines(fields[k + 1..]) == before + (fields[k] + "\n" + JoinLines(fields[k + 1..]));
  }

  lemma FiveLines(f: seq<string>) returns (text: string)
    requires |f| == 11
    ensures text == f[0] + "\n" + f[1] + "\n" + f[2] + "\n" + f[3] + "\n" + f[4] + "\n"
    ensures text + JoinLines(f[5..]) == JoinLines(f)
  {
    hide JoinLines;
    assert f[0..] == f && "" + f[0] == f[0] && "" + JoinLines(f) == JoinLines(f);
    text := NextLine("", f, 0);
    text := NextLine(text, f, 1);
    text := NextLine(text, f, 2);
    text := NextLine(text, f, 3);
    text := NextLine(text, f, 4);
  }

  lemma ElevenLines(f: seq<string>)
    requires |f| == 11
    ensures JoinLines(f)
         == f[0] + "\n" + f[1] + "\n" + f[2] + "\n" + f[3] + "\n" + f[4] + "\n"
           + f[5] + "\n" + f[6] + "\n" + f[7] + "\n" + f[8] + "\n" + f[9] + "\n" + f[10]
  {
    assert JoinLines(f[10..]) == f[10];
    hide JoinLines;
    var text := FiveLines(f);
    text := NextLine(text, f, 5);
    text := NextLine(text, f, 6);
    text := NextLine(text, f, 7);
    text := NextLine(text, f, 8);
    text := NextLine(text, f, 9);
  }

  // The text that is hashed, written out: its eleven lines, the timestamp in whole milliseconds.
  lemma HashIsOfTheseLines(digest: Digest, prevHash: string, e: AuditEvent)
    ensures var ms := Decimal(if e.timestamp < 0 then 0 else e.timestamp / 1_000_000);
            var action := match e.action
                          case Read => "Read"
                          case Execute => "Execute"
                          case Write => "Write"
                          case Manage => "Manage";
            var resource := match e.resource
                            case Telemetry => "Telemetry"
                            case ControlCommand => "ControlCommand"
                            case FileTransfer => "FileTransfer"
                            case Configuration => "Configuration"
                            case Upgrade => "Upgrade"
                            case AppControl => "AppControl"
                            case SecurityPolicy => "SecurityPolicy";
            var text := prevHash + "\n" + e.eventId + "\n" + ms + "\n" + e.tenantId + "\n" + e.deviceId + "\n"
                        + action + "\n" + resource + "\n" + e.target + "\n" + e.paramsDigest + "\n" + e.result
                        + "\n" + e.traceId;
            Preimage(prevHash, e) == text && CalculateHash(digest, e, prevHash) == Hex(digest(text))
  {
    hide Hex, Decimal, JoinLines;
    ElevenLines(HashedFields(prevHash, e));
  }

  predicate OneLine(text: string) {
    '\n' !in text
  }

  predicate TextFieldsOneLine(e: AuditEvent) {
    && OneLine(e.tenantId) && OneLine(e.deviceId) && OneLine(e.target)
    && OneLine(e.paramsDigest) && OneLine(e.result) && OneLine(e.traceId)
  }

  // Agreement on everything the hash covers: neither `principal` nor the part of the timestamp
  // below one millisecond is among it.
  predicate SameHashedContent(a: AuditEvent, b: AuditEvent) {
    && a.eventId == b.eventId && TimestampMs(a.timestamp) == TimestampMs(b.timestamp)
    && a.tenantId == b.tenantId && a.deviceId == b.deviceId && a.action == b.action
    && a.resource == b.resource && a.target == b.target && a.paramsDigest == b.paramsDigest
    && a.result == b.result && a.traceId == b.traceId
  }

  ghost function Newlines(text: string): nat {
    multiset(text)['\n']
  }

  ghost function TotalNewlines(fields: seq<string>): nat {
    if fields == [] then 0 else Newlines(fields[0]) + TotalNewlines(fields[1..])
  }

  lemma {:induction false} JoinedNewlines(fields: seq<string>)
    requires fields != []
    ensures Newlines(JoinLines(fields)) == |fields| - 1 + TotalNewlines(fields)
  {
    if |fields| > 1 {
      JoinedNewlines(fields[1..]);
      assert TotalNewlines(fields) == Newlines(fields[0]) + TotalNewlines(fields[1..]);
      assert Newlines("\n") == 1;
    } else {
      assert fields == [fields[0]];
      assert TotalNewlines(fields[1..]) == 0;
    }
  }

  lemma {:induction false} NoNewlinesMeansOneLine(fields: seq<string>)
    ensures TotalNewlines(fields) == 0 <==> forall f | f in fields :: OneLine(f)
  {
    if fields == [] {
    } else {
      NoNewlinesMeansOneLine(fields[1..]);
      assert fields == [fields[0]] + fields[1..];
      assert Newlines(fields[0]) == 0 <==> OneLine(fields[0]);
    }
  }

  lemma {:induction false} OneLineListsAreRecovered(a: seq<string>, b: seq<string>)
    requires a != [] && |a| == |b| && JoinLines(a) == JoinLines(b)
    requires forall f | f in a :: OneLine(f)
    requires forall f | f in b :: OneLine(f)
    ensures a == b
  {
    if |a| == 1 {
    } else {
      var text := JoinLines(a);
      assert text[|a[0]|] == '\n' && text[|b[0]|] == '\n';
      assert text[..|a[0]|] == a[0] && text[..|b[0]|] == b[0];
      assert |a[0]| == |b[0]| by {
        assert OneLine(a[0]) && OneLine(b[0]);
      }
      assert text[|a[0]| + 1..] == JoinLines(a[1..]) && text[|b[0]| + 1..] == JoinLines(b[1..]);
      OneLineListsAreRecovered(a[1..], b[1..]);
      assert a == [a[0]] + a[1..] && b == [b[0]] + b[1..];
    }
  }

  // One newline-free side is enough: a list of the same length with the same joined text has
  // no newline to spare.
  lemma JoinIsInjectiveAtOneLineLists(a: seq<string>, b: seq<string>)
    requires a != [] && |a| == |b| && JoinLines(a) == JoinLines(b)
    requires forall f | f in a :: OneLine(f)
    ensures a == b
  {
    JoinedNewlines(a);
    JoinedNewlines(b);
    NoNewlinesMeansOneLine(a);
    NoNewlinesMeansOneLine(b);
    OneLineListsAreRecovered(a, b);
  }

  lemma OneLineEventFields(prevHash: string, e: AuditEvent)
    requires OneLine(prevHash) && OneLine(e.eventId) && TextFieldsOneLine(e)
    ensures forall f | f in HashedFields(prevHash, e) :: OneLine(f)
  {
    hide Decimal, TimestampMs;
    var ms := Decimal(TimestampMs(e.timestamp));
    assert '\n' !in DIGITS;
    assert OneLine(ms);
  }

  // A preimage with newline-free fields determines the previous hash and all hashed content.
  lemma PreimageIsInjective(prevHash: string, e: AuditEvent, prevHash': string, e': AuditEvent)
    requires OneLine(prevHash) && OneLine(e.eventId) && TextFieldsOneLine(e)
    requires Preimage(prevHash, e) == Preimage(prevHash', e')
    ensures prevHash == prevHash' && SameHashedContent(e, e')
  {
    var a, b := HashedFields(prevHash, e), HashedFields(prevHash', e');
    OneLineEventFields(prevHash, e);
    JoinIsInjectiveAtOneLineLists(a, b);
    assert forall i | 0 <= i < 11 :: a[i] == b[i];
    assert a[2] == Decimal(TimestampMs(e.timestamp)) && b[2] == Decimal(TimestampMs(e'.timestamp));
    DecimalIsInjective(TimestampMs(e.timestamp), TimestampMs(e'.timestamp));
    assert a[5] == ActionText(e.action) && b[5] == ActionText(e'.action);
    ActionTextIsInjective(e.action, e'.action);
    assert a[6] == ResourceText(e.resource) && b[6] == ResourceText(e'.resource);
    ResourceTextIsInjective(e.resource, e'.resource);
  }

  // ------------------------------------- newlines are what makes it ambiguous

  // Moving "\n" + y from the end of one field to the front of the next keeps the joined text.
  lemma {:induction false} ShiftAcrossBoundary(
    fields: seq<string>, i: nat, left: string, right: string)
    requires i + 1 < |fields|
    requires fields[i] + "\n" + fields[i + 1] == left + "\n" + right
    ensures JoinLines(fields[i := left][i + 1 := right]) == JoinLines(fields)
  {
    var moved := fields[i := left][i + 1 := right];
    if i > 0 {
      ShiftAcrossBoundary(fields[1..], i - 1, left, right);
      assert moved[1..] == fields[1..][i - 1 := left][i := right];
    } else if |fields| == 2 {
      assert moved == [left, right] && fields == [fields[0], fields[1]];
      assert moved[1..] == [right] && fields[1..] == [fields[1]];
    } else {
      assert moved[1..][0] == right && moved[1..][1..] == fields[1..][1..];
      var tail := JoinLines(fields[2..]);
      assert fields[1..][1..] == fields[2..];
      calc {
        JoinLines(moved);
        left + "\n" + (right + "\n" + tail);
        (left + "\n" + right) + "\n" + tail;
        (fields[0] + "\n" + fields[1]) + "\n" + tail;
        fields[0] + "\n" + (fields[1] + "\n" + tail);
        JoinLines(fields);
      }
    }
  }

  lemma SplitAtNewline(text: string) returns (left: string, right: string)
    requires !OneLine(text)
    ensures text == left + "\n" + right
  {
    var i :| 0 <= i < |text| && text[i] == '\n';
    left, right := text[..i], text[i + 1..];
  }

  // The event whose free-text fields are read back from a list of hashed fields.
  function WithTextFields(e: AuditEvent, fields: seq<string>): AuditEvent
    requires |fields| == 11
  {
    e.(tenantId := fields[3], deviceId := fields[4], target := fields[7], paramsDigest := fields[8],
       result := fields[9], traceId := fields[10])
  }

  // Two neighbouring free-text fields divided elsewhere.
  lemma MovedText(prevHash: string, e: AuditEvent, i: nat, left: string, right: string) returns (other: AuditEvent)
    requires i in {3, 7, 8, 9}
    requires var fields := HashedFields(prevHash, e);
             fields[i] + "\n" + fields[i + 1] == left + "\n" + right && |left| != |fields[i]|
    ensures Preimage(prevHash, other) == Preimage(prevHash, e) && !SameHashedContent(other, e)
  {
    hide JoinLines;
    var fields := HashedFields(prevHash, e);
    ShiftAcrossBoundary(fields, i, left, right);
    other := WithTextFields(e, fields[i := left][i + 1 := right]);
    assert HashedFields(prevHash, other) == fields[i := left][i + 1 := right];
  }

  // Any of the six free-text fields that holds a newline lets another event share the preimage.
  lemma NewlineMakesAmbiguous(prevHash: string, e: AuditEvent) returns (other: AuditEvent)
    requires !TextFieldsOneLine(e)
    ensures Preimage(prevHash, other) == Preimage(prevHash, e) && !SameHashedContent(other, e)
  {
    var fields := HashedFields(prevHash, e);
    var j :| j in {3, 4, 7, 8, 9, 10} && !OneLine(fields[j]);
    hide HashedFields, OneLine, TextFieldsOneLine, SameHashedContent, Preimage;
    var x, y := SplitAtNewline(fields[j]);
    if j == 4 || j == 10 {
      assert fields[j - 1] + "\n" + fields[j] == (fields[j - 1] + "\n" + x) + "\n" + y;
      other := MovedText(prevHash, e, j - 1, fields[j - 1] + "\n" + x, y);
    } else {
      assert fields[j] + "\n" + fields[j + 1] == x + "\n" + (y + "\n" + fields[j + 1]);
      other := MovedText(prevHash, e, j, x, y + "\n" + fields[j + 1]);
    }
  }

  // Exactly when the hashed text pins the event down.
  lemma PreimageUnambiguousIff(prevHash: string, e: AuditEvent)
    requires OneLine(prevHash) && OneLine(e.eventId)
    ensures TextFieldsOneLine(e)
       <==> forall e' :: Preimage(prevHash, e') == Preimage(prevHash, e) ==> SameHashedContent(e', e)
  {
    if TextFieldsOneLine(e) {
      forall e' | Preimage(prevHash, e') == Preimage(prevHash, e) ensures SameHashedContent(e', e) {
        PreimageIsInjective(prevHash, e, prevHash, e');
      }
    } else {
      var other := NewlineMakesAmbiguous(prevHash, e);
    }
  }

  // ---------------------------------------------------------------- the chain

  function LastHash(events: seq<AuditEvent>): string {
    if events == [] then "" else events[|events| - 1].hash
  }

  function Sealed(digest: Digest, event: AuditEvent, prevHash: string): AuditEvent {
    event.(prevHash := prevHash, hash := CalculateHash(digest, event, prevHash))
  }

  function Appended(digest: Digest, events: seq<AuditEvent>, event: AuditEvent): seq<AuditEvent> {
    events + [Sealed(digest, event, LastHash(events))]
  }

  predicate VerifiesFrom(digest: Digest, expectedPrevHash: string, events: seq<AuditEvent>)
    decreases |events|
  {
    events == []
    || (&& events[0].prevHash == expectedPrevHash
        && events[0].hash == CalculateHash(digest, events[0], events[0].prevHash)
        && VerifiesFrom(digest, events[0].hash, events[1..]))
  }

  predicate Verifies(digest: Digest, events: seq<AuditEvent>) {
    VerifiesFrom(digest, "", events)
  }

  lemma {:induction false} VerifiesSnoc(digest: Digest, expected: string, events: seq<AuditEvent>, last: AuditEvent)
    ensures VerifiesFrom(digest, expected, events + [last])
       <==> && VerifiesFrom(digest, expected, events)
            && last.prevHash == (if events == [] then expected else LastHash(events))
            && last.hash == CalculateHash(digest, last, last.prevHash)
    decreases |events|
  {
    if events == [] {
      assert events + [last] == [last];
    } else {
      assert (events + [last])[1..] == events[1..] + [last];
      VerifiesSnoc(digest, events[0].hash, events[1..], last);
    }
  }

  // Whatever hashes the event arrives with, appending keeps a verifying chain verifying.
  lemma AppendKeepsVerifying(digest: Digest, events: seq<AuditEvent>, event: AuditEvent)
    requires Verifies(digest, events)
    ensures Verifies(digest, Appended(digest, events, event))
  {
    VerifiesSnoc(digest, "", events, Sealed(digest, event, LastHash(events)));
  }

  class Chain {
    const digest: Digest
    var events: seq<AuditEvent>

    constructor (digest: Digest)
      ensures this.digest == digest && events == []
    {
      this.digest := digest;
      events := [];
    }

    method Append(event: AuditEvent)
      modifies this
      ensures events == Appended(digest, old(events), event)
      ensures Verifies(digest, old(events)) ==> Verifies(digest, events)
    {
      var prevHash := if events == [] then "" else events[|events| - 1].hash;
      var linked := event.(prevHash := prevHash);
      linked := linked.(hash := CalculateHash(digest, linked, linked.prevHash));
      if Verifies(digest, events) {
        AppendKeepsVerifying(digest, events, event);
      }
      events := events + [linked];
    }

    method Verify() returns (ok: bool)
      ensures ok == Verifies(digest, events)
    {
      var expectedPrevHash := "";
      for i := 0 to |events|
        invariant Verifies(digest, events) == VerifiesFrom(digest, expectedPrevHash, events[i..])
      {
        var event := events[i];
        if event.prevHash != expectedPrevHash {
          return false;
        }
        if event.hash != CalculateHash(digest, event, event.prevHash) {
          return false;
        }
        expectedPrevHash := event.hash;
        assert events[i..][1..] == events[i + 1..];
      }
      return true;
    }

    method PushStored(event: AuditEvent)
      modifies this
      ensures events == old(events) + [event]
    {
      events := events + [event];
    }
  }

  // ------------------------------------------------------------------ binding

  // Same length, same links and same hashed content, event by event.
  ghost predicate Agree(c: seq<AuditEvent>, d: seq<AuditEvent>) {
    && |c| == |d|
    && forall i | 0 <= i < |c| ::
         SameHashedContent(c[i], d[i]) && c[i].prevHash == d[i].prevHash && c[i].hash == d[i].hash
  }

  // Two different texts, one hashed in each chain, with the same digest.
  ghost predicate Collide(digest: Digest, c: seq<AuditEvent>, d: seq<AuditEvent>) {
    exists i, j | 0 <= i < |c| && 0 <= j < |d| ::
      && Preimage(c[i].prevHash, c[i]) != Preimage(d[j].prevHash, d[j])
      && digest(Preimage(c[i].prevHash, c[i])) == digest(Preimage(d[j].prevHash, d[j]))
  }

  ghost predicate AllOneLine(events: seq<AuditEvent>) {
    forall e | e in events :: OneLine(e.eventId) && TextFieldsOneLine(e)
  }

  lemma LastLink(digest: Digest, events: seq<AuditEvent>)
    requires events != [] && Verifies(digest, events)
    ensures var n := |events| - 1;
            && Verifies(digest, events[..n])
            && events[n].prevHash == LastHash(events[..n])
            && events[n].hash == CalculateHash(digest, events[n], events[n].prevHash)
  {
    var n := |events| - 1;
    assert events == events[..n] + [events[n]];
    VerifiesSnoc(digest, "", events[..n], events[n]);
  }

  lemma StoredHashesAreHex(digest: Digest, events: seq<AuditEvent>)
    requires Produces32Bytes(digest) && Verifies(digest, events)
    ensures OneLine(LastHash(events)) && (events != [] ==> |LastHash(events)| == 64)
  {
    if events != [] {
      LastLink(digest, events);
      assert '\n' !in HEX;
    }
  }

  lemma LastEventsBind(digest: Digest, c: seq<AuditEvent>, d: seq<AuditEvent>)
    requires Produces32Bytes(digest) && Verifies(digest, c) && Verifies(digest, d)
    requires c != [] && d != [] && AllOneLine(c) && LastHash(c) == LastHash(d) && !Collide(digest, c, d)
    ensures Agree([c[|c| - 1]], [d[|d| - 1]]) && LastHash(c[..|c| - 1]) == LastHash(d[..|d| - 1])
  {
    hide VerifiesFrom, Preimage, Hex, OneLine, TextFieldsOneLine, SameHashedContent;
    var x, y := c[|c| - 1], d[|d| - 1];
    LastLink(digest, c);
    LastLink(digest, d);
    HexIsInjective(digest(Preimage(x.prevHash, x)), digest(Preimage(y.prevHash, y)));
    StoredHashesAreHex(digest, c[..|c| - 1]);
    PreimageIsInjective(x.prevHash, x, y.prevHash, y);
  }

  lemma NoCollisionInPrefixes(digest: Digest, c: seq<AuditEvent>, d: seq<AuditEvent>, m: nat, n: nat)
    requires !Collide(digest, c, d) && m <= |c| && n <= |d|
    ensures !Collide(digest, c[..m], d[..n])
  {
    assert forall i | 0 <= i < m :: c[..m][i] == c[i];
    assert forall j | 0 <= j < n :: d[..n][j] == d[j];
  }

  lemma AgreeSnoc(c: seq<AuditEvent>, d: seq<AuditEvent>)
    requires c != [] && d != [] && Agree(c[..|c| - 1], d[..|d| - 1])
    requires Agree([c[|c| - 1]], [d[|d| - 1]])
    ensures Agree(c, d)
  {
    var m := |c| - 1;
    assert SameHashedContent([c[m]][0], [d[|d| - 1]][0]);
    assert forall i | 0 <= i < m :: c[..m][i] == c[i] && d[..m][i] == d[i];
  }

  lemma {:induction false} EqualHashesBind(digest: Digest, c: seq<AuditEvent>, d: seq<AuditEvent>)
    requires Produces32Bytes(digest) && Verifies(digest, c) && Verifies(digest, d)
    requires AllOneLine(c) && LastHash(c) == LastHash(d) && !Collide(digest, c, d)
    ensures Agree(c, d)
    decreases |c|
  {
    StoredHashesAreHex(digest, c);
    StoredHashesAreHex(digest, d);
    hide Collide, SameHashedContent, VerifiesFrom, CalculateHash, OneLine, TextFieldsOneLine;
    if c == [] {
    } else {
      var m, n := |c| - 1, |d| - 1;
      LastLink(digest, c);
      LastLink(digest, d);
      LastEventsBind(digest, c, d);
      NoCollisionInPrefixes(digest, c, d, m, n);
      EqualHashesBind(digest, c[..m], d[..n]);
      AgreeSnoc(c, d);
    }
  }

  // Unless the digest collides on two texts hashed in these chains, the last hash is equal
  // exactly when the chains have the same length and agree on every hashed field.
  lemma LastHashBindsTheChain(digest: Digest, c: seq<AuditEvent>, d: seq<AuditEvent>)
    requires Produces32Bytes(digest) && Verifies(digest, c) && Verifies(digest, d) && AllOneLine(c)
    ensures Collide(digest, c, d) || (LastHash(c) == LastHash(d) <==> Agree(c, d))
  {
    if LastHash(c) == LastHash(d) && !Collide(digest, c, d) {
      EqualHashesBind(digest, c, d);
    }
  }

  lemma {:induction false} AgreeingChainsVerifyAlike(
    digest: Digest, expected: string, c: seq<AuditEvent>, d: seq<AuditEvent>)
    requires Agree(c, d)
    ensures VerifiesFrom(digest, expected, c) == VerifiesFrom(digest, expected, d)
    decreases |c|
  {
    if c == [] {
    } else {
      assert HashedFields(c[0].prevHash, c[0]) == HashedFields(d[0].prevHash, d[0]);
      AgreeingChainsVerifyAlike(digest, c[0].hash, c[1..], d[1..]);
    }
  }

  // The chain does not protect what it does not hash: any principals, and any timestamps within the
  // same milliseconds, may be written over the stored ones, and the verdict stays what it was.
  lemma UnhashedFieldsAreNotProtected(
    digest: Digest, c: seq<AuditEvent>, principals: seq<string>, timestamps: seq<Instant>)
    requires |principals| == |c| == |timestamps|
    requires forall i | 0 <= i < |c| :: TimestampMs(timestamps[i]) == TimestampMs(c[i].timestamp)
    ensures Verifies(digest, c)
         == Verifies(digest, seq(|c|, i requires 0 <= i < |c| =>
                                        c[i].(principal := principals[i], timestamp := timestamps[i])))
  {
    var d := seq(|c|, i requires 0 <= i < |c| => c[i].(principal := principals[i], timestamp := timestamps[i]));
    AgreeingChainsVerifyAlike(digest, "", c, d);
  }
}
