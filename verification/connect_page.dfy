/** The guest "remote access" page (web/pages/connect.js): it formats a random
    base-36 string as an `XXX-XXX` code, registers through `/api/signal`, and
    on success re-sends the same registration every 10 seconds.

    `Math.random().toString(36)` and `Date.now()` are parameters, as is the
    outcome of the registration request. */
module ConnectPage {
  import opened Wrappers
  import opened Json
  import opened Text

  /** A character of a formatted code other than its dash. */
  predicate IsCodeChar(c: char) {
    '0' <= c <= '9' || 'A' <= c <= 'Z'
  }

  /** `randomCode = t.substring(2, 8).toUpperCase()` and the formatted code
      `randomCode.substring(0, 3) + '-' + randomCode.substring(3, 6)`. */
  function FormatCode(t: string): (code: string)
    ensures |t| >= 8 ==> |code| == 7 && code[3] == '-'
    ensures |t| >= 8 ==> code[..3] == ToUpper(t[2..5]) && code[4..] == ToUpper(t[5..8])
  {
    var random := ToUpper(Substring(t, 2, 8));
    Substring(random, 0, 3) + "-" + Substring(random, 3, 6)
  }

  /** The six characters of a formatted code, without its dash. */
  function CodeDigits(code: string): string
    requires |code| == 7
  {
    code[..3] + code[4..]
  }

  /** A base-36 digit in lower case. */
  function Base36Digit(d: nat): (c: char)
    requires d < 36
    ensures IsBase36Digit(c)
  {
    if d < 10 then ('0' as int + d) as char else ('a' as int + (d - 10)) as char
  }

  /** The number a base-36 digit stands for. */
  function DigitValue(c: char): (d: nat)
    requires IsBase36Digit(c)
    ensures d < 36
  {
    if c <= '9' then c as int - '0' as int else c as int - 'a' as int + 10
  }

  /** The number a base-36 text denotes, most significant digit first. */
  function Base36Value(s: string): nat
    requires forall i :: 0 <= i < |s| ==> IsBase36Digit(s[i])
  {
    if |s| == 0 then 0 else 36 * Base36Value(s[..|s| - 1]) + DigitValue(s[|s| - 1])
  }

  /** `n.toString(36)`: the base-36 digits of `n`, without leading zeros. */
  function ToBase36(n: nat): (s: string)
    ensures |s| >= 1
    ensures forall i :: 0 <= i < |s| ==> IsBase36Digit(s[i])
    ensures Base36Value(s) == n
    ensures n < 36 <==> |s| == 1
  {
    if n < 36 then [Base36Digit(n)]
    else
      var s := ToBase36(n / 36) + [Base36Digit(n % 36)];
      assert s[..|s| - 1] == ToBase36(n / 36);
      s
  }

  /** `PC-${Date.now().toString(36)}`. */
  function PeerId(now: nat): (id: string)
    ensures |id| > 3 && id[..3] == "PC-"
    ensures forall i :: 0 <= i < |id| ==> id[i] != '/'
  {
    "PC-" + ToBase36(now)
  }

  /** The body of the registration request; the heartbeat sends it again. */
  function RegisterBody(id: string, code: string): (body: Json)
    ensures body.Obj?
    ensures Field(body, "type") == Some(Str("register"))
    ensures Field(body, "peerId") == Some(Str(id))
    ensures Field(body, "hostname") == Some(Str("Guest-" + code))
    ensures Field(body, "code") == Some(Str(code))
  {
    var ms := [ Member("type", Str("register"))
              , Member("peerId", Str(id))
              , Member("hostname", Str("Guest-" + code))
              , Member("code", Str(code)) ];
    IndexOfAgrees(ms, "type", 0);
    IndexOfAgrees(ms, "peerId", 1);
    IndexOfAgrees(ms, "hostname", 2);
    IndexOfAgrees(ms, "code", 3);
    Obj(ms)
  }

  /** The page after the registration request; `None` when it threw. */
  datatype Page = Page(code: string, peerId: string, status: string, heartbeat: bool)

  /** The heartbeat is started only after an OK registration response. */
  function Start(t: string, now: nat, response: Option<int>): (p: Page)
    ensures p.heartbeat <==> response.Some? && 200 <= response.value <= 299
    ensures p.code == FormatCode(t) && p.peerId == PeerId(now)
    ensures response.None? ==> p.status == "Connection failed"
  {
    var code := FormatCode(t);
    var id := PeerId(now);
    match response
    case None => Page(code, id, "Connection failed", false)
    case Some(s) =>
      if 200 <= s <= 299 then Page(code, id, "Waiting for connection...", true)
      else Page(code, id, "Generating code...", false)
  }

  /** What each heartbeat tick posts: nothing before the heartbeat starts,
      the registration body afterwards. */
  function HeartbeatBody(p: Page): (body: Option<Json>)
    ensures body.Some? <==> p.heartbeat
  {
    if p.heartbeat then Some(RegisterBody(p.peerId, p.code)) else None
  }

  // ---------------------------------------------------------------------------
  // Lemmas

  /** With six fraction digits available, the code is `XXX-XXX` over
      `[0-9A-Z]`, and its six characters are the upper-cased digits. */
  lemma CodeShape(t: string)
    requires IsRandomText(t) && |t| >= 8
    ensures var code := FormatCode(t);
            && |code| == 7 && code[3] == '-'
            && (forall i :: 0 <= i < 7 && i != 3 ==> IsCodeChar(code[i]))
            && CodeDigits(code) == ToUpper(t[2..8])
  {
    CodeChars(t);
    CodeDigitsOfText(t);
  }

  lemma CodeChars(t: string)
    requires IsRandomText(t) && |t| >= 8
    ensures forall i :: 0 <= i < 7 && i != 3 ==> IsCodeChar(FormatCode(t)[i])
  {
    var code := FormatCode(t);
    forall i | 0 <= i < 7 && i != 3 ensures IsCodeChar(code[i]) {
      var j := if i < 3 then 2 + i else 1 + i;
      assert code[i] == UpperChar(t[j]) by {
        if i < 3 {
          assert code[i] == ToUpper(t[2..5])[i];
        } else {
          assert code[i] == code[4..][i - 4] == ToUpper(t[5..8])[i - 4];
        }
      }
      UpperDigitIsCodeChar(t[j]);
    }
  }

  lemma CodeDigitsOfText(t: string)
    requires |t| >= 8
    ensures CodeDigits(FormatCode(t)) == ToUpper(t[2..8])
  {
    assert t[2..8] == t[2..5] + t[5..8];
    assert ToUpper(t[2..8]) == ToUpper(t[2..5]) + ToUpper(t[5..8]);
  }

  /** An upper-cased base-36 digit is a code character. */
  lemma UpperDigitIsCodeChar(c: char)
    requires IsBase36Digit(c)
    ensures IsCodeChar(UpperChar(c))
  {
  }

  /** A random number with a short base-36 expansion gives a short code:
      `0.5` prints as `0.i` and becomes the code `I-`. */
  lemma ShortExpansionGivesShortCode()
    ensures FormatCode("0.i") == "I-"
  {
    assert Substring("0.i", 2, 8) == "i";
    assert ToUpper("i") == "I";
  }

  /** The generated id is one path segment, so the registration lands on
      `peers/{id}`. */
  lemma PeerIdIsKey(now: nat)
    ensures PeerId(now) != "" && '/' !in PeerId(now)
  {
  }

  /** Distinct milliseconds give distinct guest ids. */
  lemma PeerIdInjective(a: nat, b: nat)
    requires PeerId(a) == PeerId(b)
    ensures a == b
  {
    assert ToBase36(a) == PeerId(a)[3..];
    assert ToBase36(b) == PeerId(b)[3..];
  }

  /** Every heartbeat re-sends exactly the initial registration body. */
  lemma HeartbeatRepeatsRegistration(t: string, now: nat, status: int)
    requires 200 <= status <= 299
    ensures HeartbeatBody(Start(t, now, Some(status)))
         == Some(RegisterBody(PeerId(now), FormatCode(t)))
  {
  }
}
