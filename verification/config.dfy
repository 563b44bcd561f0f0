/**
  Start-up configuration checking (`validate_config`) and the parse of the
  chat allow-list.  Each environment variable is an optional string (`None`
  when unset); validation maps them to the list of error messages it would
  print before exiting, and the process goes on only when that list is
  empty.
 */
module Config {
  import opened Base
  import opened Text

  /** The environment variables the checks read. */
  datatype Env = Env(apiId: Option<string>, apiHash: Option<string>, phoneNumber: Option<string>,
                     allowedChatIds: Option<string>, dcId: Option<string>, dcPort: Option<string>,
                     dcIp: Option<string>)

  const ApiIdNotSet: string := "API_ID is not set in environment variables"
  const ApiIdNotPositive: string := "API_ID must be a positive integer"
  const ApiIdNotInteger: string := "API_ID must be a valid integer"
  const ApiHashEmpty: string := "API_HASH is not set or is empty"
  const ApiHashLength: string := "API_HASH must be 32 characters long"
  const PhoneEmpty: string := "PHONE_NUMBER is not set or is empty"
  const PhoneNoPlus: string := "PHONE_NUMBER must start with '+' (e.g., +1234567890)"
  const PhoneTooShort: string := "PHONE_NUMBER is too short"
  const PhoneNotDigits: string := "PHONE_NUMBER must contain only digits after '+'"
  const DcIdRange: string := "DC_ID must be between 1 and 5"
  const DcIdNotInteger: string := "DC_ID must be a valid integer"
  const DcPortNotInteger: string := "DC_PORT must be a valid integer"
  const DcIpEmpty: string := "DC_IP is not set or is empty"
  const DcIpInvalid: string := "DC_IP must be a valid IPv4 address"

  /** The error naming one allow-list token that is not an integer. */
  function ChatIdInvalid(token: string): string {
    "ALLOWED_CHAT_IDS contains invalid value: " + token + " (must be integer)"
  }

  const DefaultDcId: string := "2"
  const DefaultDcPort: string := "443"
  const DefaultDcIp: string := "149.154.167.50"

  /** The required length of API_HASH. */
  const ApiHashSize: nat := 32

  /** The shortest accepted phone number, '+' included. */
  const MinPhoneLength: nat := 9

  /** Python's `not s or not s.strip()`: unset, empty or all white space. */
  predicate Blank(s: Option<string>) {
    s.None? || Strip(s.value) == ""
  }

  /** A variable is blank exactly when it is unset or every character of
      it is white space. */
  lemma BlankMeaning(s: Option<string>)
    ensures Blank(s) <==> s.None? || AllSpace(s.value)
  {
    if s.Some? {
      StripEmptyIffBlank(s.value);
    }
  }

  // ---------------------------------------------------------------------
  // One check per variable

  /** API_ID: set, an integer, and positive; exactly one complaint
      otherwise. */
  function ApiIdErrors(v: Option<string>): (r: seq<string>)
    ensures |r| <= 1
    ensures r == [ApiIdNotSet] <==> v.None? || v.value == ""
    ensures r == [ApiIdNotInteger] <==> v.Some? && v.value != "" && ParseInt(v.value).None?
    ensures r == [ApiIdNotPositive] <==> v.Some? && ParseInt(v.value).Some? && ParseInt(v.value).value <= 0
    ensures r == [] <==> v.Some? && ParseInt(v.value).Some? && ParseInt(v.value).value > 0
  {
    if v.None? || v.value == "" then [ApiIdNotSet]
    else
      match ParseInt(v.value)
      case None => [ApiIdNotInteger]
      case Some(n) => if n <= 0 then [ApiIdNotPositive] else []
  }

  /** API_HASH: not blank, and exactly 32 characters as given (white space
      included). */
  function ApiHashErrors(v: Option<string>): (r: seq<string>)
    ensures |r| <= 1
    ensures r == [ApiHashEmpty] <==> Blank(v)
    ensures r == [ApiHashLength] <==> !Blank(v) && |v.value| != ApiHashSize
    ensures r == [] <==> !Blank(v) && |v.value| == ApiHashSize
  {
    if Blank(v) then [ApiHashEmpty]
    else if |v.value| != ApiHashSize then [ApiHashLength]
    else []
  }

  /** An acceptable phone number once stripped: '+', then only digits, at
      least nine characters in all. */
  predicate PhoneShape(p: string) {
    |p| >= MinPhoneLength && p[0] == '+' && AllDigits(p[1..])
  }

  /** PHONE_NUMBER: the checks run in order on the stripped number and only
      the first that fails is reported. */
  function PhoneErrors(v: Option<string>): (r: seq<string>)
    ensures |r| <= 1
    ensures r == [PhoneEmpty] <==> Blank(v)
    ensures r == [PhoneNoPlus] <==> !Blank(v) && Strip(v.value)[0] != '+'
    ensures r == [PhoneTooShort] <==>
              !Blank(v) && Strip(v.value)[0] == '+' && |Strip(v.value)| < MinPhoneLength
    ensures r == [PhoneNotDigits] <==>
              && !Blank(v) && Strip(v.value)[0] == '+' && |Strip(v.value)| >= MinPhoneLength
              && !AllDigits(Strip(v.value)[1..])
    ensures r == [] <==> !Blank(v) && PhoneShape(Strip(v.value))
  {
    if Blank(v) then [PhoneEmpty]
    else
      var p := Strip(v.value);
      if p[0] != '+' then [PhoneNoPlus]
      else if |p| < MinPhoneLength then [PhoneTooShort]
      else if !AllDigits(p[1..]) then [PhoneNotDigits]
      else []
  }

  /** A token that is blank once stripped: ignored by the check and by the
      parse alike. */
  predicate BlankToken(t: string) {
    Strip(t) == ""
  }

  /** Every non-blank token is an integer once stripped. */
  predicate TokensAreIntegers(tokens: seq<string>) {
    forall i :: 0 <= i < |tokens| && !BlankToken(tokens[i]) ==> ParseInt(Strip(tokens[i])).Some?
  }

  /** The complaint about one token: none when it is blank or an integer
      once stripped, otherwise one naming the stripped token. */
  function Complaint(token: string): seq<string> {
    var t := Strip(token);
    if t == "" || ParseInt(t).Some? then [] else [ChatIdInvalid(t)]
  }

  /** The loop over the tokens: each token's complaint, in order. */
  function TokenErrors(tokens: seq<string>): seq<string>
    decreases |tokens|
  {
    if |tokens| == 0 then [] else Complaint(tokens[0]) + TokenErrors(tokens[1..])
  }

  /** At most one error per token, none exactly when every non-blank token
      is an integer, and a lone offending token is named once stripped. */
  lemma {:induction false} TokenErrorsMeaning(tokens: seq<string>)
    ensures |TokenErrors(tokens)| <= |tokens|
    ensures TokenErrors(tokens) == [] <==> TokensAreIntegers(tokens)
    ensures |tokens| == 1 && !BlankToken(tokens[0]) && ParseInt(Strip(tokens[0])).None? ==>
              TokenErrors(tokens) == [ChatIdInvalid(Strip(tokens[0]))]
    decreases |tokens|
  {
    if |tokens| > 0 {
      TokenErrorsMeaning(tokens[1..]);
      TokensAreIntegersCons(tokens);
      if |tokens| == 1 {
        assert TokenErrors(tokens[1..]) == [];
      }
    }
  }

  lemma TokenErrorsCons(t: string, rest: seq<string>)
    ensures TokenErrors([t] + rest) == Complaint(t) + TokenErrors(rest)
  {
    assert ([t] + rest)[1..] == rest;
  }

  /** The errors of two runs of tokens are those of the first followed by
      those of the second: with the one-token case, one error per
      offending token, in the order of the tokens. */
  lemma {:induction false} TokenErrorsAppend(a: seq<string>, b: seq<string>)
    ensures TokenErrors(a + b) == TokenErrors(a) + TokenErrors(b)
    decreases |a|
  {
    if |a| == 0 {
      assert a + b == b;
    } else {
      var t, a' := a[0], a[1..];
      var c := Complaint(t);
      assert TokenErrors(a + b) == c + TokenErrors(a' + b) by {
        assert a + b == [t] + (a' + b);
        TokenErrorsCons(t, a' + b);
      }
      assert TokenErrors(a) == c + TokenErrors(a') by {
        assert a == [t] + a';
        TokenErrorsCons(t, a');
      }
      TokenErrorsAppend(a', b);
      ConcatAssoc(c, TokenErrors(a'), TokenErrors(b));
    }
  }

  lemma PrefixCons<T>(s: seq<T>, k: nat)
    requires 1 <= k <= |s|
    ensures s[..k] == [s[0]] + s[1..][..k - 1]
  {
  }

  lemma ConcatAssoc<T>(x: seq<T>, y: seq<T>, z: seq<T>)
    ensures x + (y + z) == (x + y) + z
  {
  }

  lemma TokensAreIntegersCons(tokens: seq<string>)
    requires |tokens| > 0
    ensures TokensAreIntegers(tokens) <==>
              (BlankToken(tokens[0]) || ParseInt(Strip(tokens[0])).Some?) && TokensAreIntegers(tokens[1..])
  {
    assert forall i :: 1 <= i < |tokens| ==> tokens[i] == tokens[1..][i - 1];
  }

  /** ALLOWED_CHAT_IDS (optional): every non-blank comma-separated token
      must be an integer. */
  function ChatIdErrors(v: Option<string>): (r: seq<string>)
    ensures r == [] <==> v.None? || v.value == "" || TokensAreIntegers(Split(v.value, ','))
    ensures v.Some? && v.value != "" ==> r == TokenErrors(Split(v.value, ','))
  {
    if v.None? || v.value == "" then []
    else
      TokenErrorsMeaning(Split(v.value, ','));
      TokenErrors(Split(v.value, ','))
  }

  /** DC_ID (default "2"): an integer from 1 to 5. */
  function DcIdErrors(v: Option<string>): (r: seq<string>)
    ensures |r| <= 1
    ensures r == [DcIdNotInteger] <==> ParseInt(v.GetOr(DefaultDcId)).None?
    ensures r == [DcIdRange] <==>
              ParseInt(v.GetOr(DefaultDcId)).Some? && !(1 <= ParseInt(v.GetOr(DefaultDcId)).value <= 5)
    ensures r == [] <==> ParseInt(v.GetOr(DefaultDcId)).Some? && 1 <= ParseInt(v.GetOr(DefaultDcId)).value <= 5
  {
    match ParseInt(v.GetOr(DefaultDcId))
    case None => [DcIdNotInteger]
    case Some(n) => if n < 1 || n > 5 then [DcIdRange] else []
  }

  /** DC_PORT (default "443"): an integer; its range is not checked. */
  function DcPortErrors(v: Option<string>): (r: seq<string>)
    ensures r == [] <==> ParseInt(v.GetOr(DefaultDcPort)).Some?
    ensures r != [] ==> r == [DcPortNotInteger]
  {
    if ParseInt(v.GetOr(DefaultDcPort)).None? then [DcPortNotInteger] else []
  }

  /** Dotted-quad form: four '.'-separated parts, each an integer from 0 to
      255 as `int()` reads it. */
  predicate IsIpv4(t: string) {
    |Split(t, '.')| == 4 && AllOctets(Split(t, '.'))
  }

  /** An integer from 0 to 255 as `int()` reads it. */
  predicate Octet(p: string) {
    ParseInt(p).Some? && 0 <= ParseInt(p).value <= 255
  }

  predicate AllOctets(parts: seq<string>) {
    forall i :: 0 <= i < |parts| ==> Octet(parts[i])
  }

  /** The per-part loop of the DC_IP check: one error per out-of-range part,
      and one more, ending the loop, at the first part that is not an
      integer. */
  function OctetErrors(parts: seq<string>): (r: seq<string>)
    ensures |r| <= |parts|
    ensures forall j :: 0 <= j < |r| ==> r[j] == DcIpInvalid
    ensures r == [] <==> AllOctets(parts)
    decreases |parts|
  {
    if |parts| == 0 then []
    else if ParseInt(parts[0]).None? then [DcIpInvalid]
    else
      var rest := OctetErrors(parts[1..]);
      AllOctetsCons(parts);
      if Octet(parts[0]) then rest else [DcIpInvalid] + rest
  }

  lemma AllOctetsCons(parts: seq<string>)
    requires |parts| > 0
    ensures AllOctets(parts) <==> Octet(parts[0]) && AllOctets(parts[1..])
  {
    assert forall i :: 1 <= i < |parts| ==> parts[i] == parts[1..][i - 1];
  }

  /** The first of `parts` that fails `ok`, or the number of parts when
      none does. */
  function FirstFailing(ok: string -> bool, parts: seq<string>): (k: nat)
    ensures k <= |parts|
    ensures forall i :: 0 <= i < k ==> ok(parts[i])
    ensures k < |parts| ==> !ok(parts[k])
    decreases |parts|
  {
    if |parts| == 0 || !ok(parts[0]) then 0 else 1 + FirstFailing(ok, parts[1..])
  }

  /** A part `int()` accepts. */
  predicate IsInteger(p: string) {
    ParseInt(p).Some?
  }

  /** Where the per-part loop stops: the index of the first part that is
      not an integer, or the number of parts when every part is one. */
  function FirstNonInteger(parts: seq<string>): (k: nat)
    ensures k <= |parts|
    ensures forall i :: 0 <= i < k ==> ParseInt(parts[i]).Some?
    ensures k < |parts| ==> ParseInt(parts[k]).None?
  {
    FirstFailing(IsInteger, parts)
  }

  /** How many of `parts` fail `ok`. */
  function CountFailing(ok: string -> bool, parts: seq<string>): nat
    decreases |parts|
  {
    if |parts| == 0 then 0 else (if ok(parts[0]) then 0 else 1) + CountFailing(ok, parts[1..])
  }

  /** The loop's error count: one per out-of-range part before it stops,
      plus one when it stops at a part that is not an integer. */
  lemma {:induction false} OctetErrorsCount(parts: seq<string>)
    ensures var k := FirstNonInteger(parts);
            |OctetErrors(parts)| == CountFailing(Octet, parts[..k]) + (if k < |parts| then 1 else 0)
    decreases |parts|
  {
    var k := FirstNonInteger(parts);
    if |parts| == 0 || !IsInteger(parts[0]) {
      assert k == 0 && parts[..k] == [];
    } else {
      var rest := parts[1..];
      var k' := FirstNonInteger(rest);
      var o := if Octet(parts[0]) then 0 else 1;
      var c := CountFailing(Octet, rest[..k']);
      assert |OctetErrors(rest)| == c + (if k' < |rest| then 1 else 0) by {
        OctetErrorsCount(rest);
      }
      assert |OctetErrors(parts)| == o + |OctetErrors(rest)| by {
        OctetErrorsStep(parts);
      }
      assert k == 1 + k' by {
        assert IsInteger(parts[0]);
      }
      assert CountFailing(Octet, parts[..k]) == o + c by {
        PrefixCons(parts, k);
        assert parts[..k][1..] == rest[..k'];
      }
    }
  }

  /** One integer part: its own error, if out of range, before the rest's. */
  lemma OctetErrorsStep(parts: seq<string>)
    requires |parts| > 0 && IsInteger(parts[0])
    ensures |OctetErrors(parts)| == (if Octet(parts[0]) then 0 else 1) + |OctetErrors(parts[1..])|
  {
  }

  /** DC_IP (default "149.154.167.50"): not blank, and a dotted quad once
      stripped. */
  function DcIpErrors(v: Option<string>): (r: seq<string>)
    ensures |r| <= 4
    ensures r == [DcIpEmpty] <==> Strip(v.GetOr(DefaultDcIp)) == ""
    ensures r == [] <==> IsIpv4(Strip(v.GetOr(DefaultDcIp)))
    ensures var s := Strip(v.GetOr(DefaultDcIp));
            s != "" && |Split(s, '.')| != 4 ==> r == [DcIpInvalid]
    ensures var s := Strip(v.GetOr(DefaultDcIp));
            s != "" && |Split(s, '.')| == 4 ==> r == OctetErrors(Split(s, '.'))
  {
    AddressErrors(Strip(v.GetOr(DefaultDcIp)))
  }

  /** The DC_IP check on the stripped value. */
  function AddressErrors(s: string): (r: seq<string>)
    ensures |r| <= 4
    ensures r == [DcIpEmpty] <==> s == ""
    ensures r == [] <==> IsIpv4(s)
    ensures s != "" && |Split(s, '.')| != 4 ==> r == [DcIpInvalid]
    ensures s != "" && |Split(s, '.')| == 4 ==> r == OctetErrors(Split(s, '.'))
  {
    if s == "" then
      SplitWithoutSep(s, '.');
      [DcIpEmpty]
    else
      var parts := Split(s, '.');
      assert DcIpInvalid[6] != DcIpEmpty[6];
      if |parts| != 4 then [DcIpInvalid]
      else
        var o := OctetErrors(parts);
        assert |o| > 0 ==> o[0] == DcIpInvalid && o[0] != DcIpEmpty;
        o
  }

  /** The default DC_ID passes its own check. */
  lemma DefaultDcIdValid()
    ensures DcIdErrors(None) == []
  {
    assert IntToString(2) == DefaultDcId;
    ParseIntToString(2);
  }

  /** The default DC_PORT passes its own check. */
  lemma DefaultDcPortValid()
    ensures DcPortErrors(None) == []
  {
    assert IntToString(443) == DefaultDcPort by {
      assert NatToString(44) == NatToString(4) + ['4'];
    }
    ParseIntToString(443);
  }

  /** A number from 0 to 255, written out, is an octet. */
  lemma OctetOfNumber(n: int, p: string)
    requires 0 <= n <= 255 && IntToString(n) == p
    ensures Octet(p)
  {
    ParseIntToString(n);
  }

  /** Three-digit decimal renderings, for the literals below. */
  lemma ThreeDigits(n: nat)
    requires 100 <= n < 1000
    ensures IntToString(n) == [DigitChar(n / 100), DigitChar(n / 10 % 10), DigitChar(n % 10)]
  {
    assert NatToString(n / 10) == NatToString(n / 100) + [DigitChar(n / 10 % 10)];
  }

  /** A written-out integer holds no dot. */
  lemma NoDotInNumber(n: int)
    ensures '.' !in IntToString(n)
  {
    var p := IntToString(n);
    assert forall k :: 0 <= k < |p| ==> IsDigit(p[k]) || p[k] == '-';
  }

  /** Four numbers from 0 to 255 written out with dots form a dotted quad. */
  lemma QuadIsIpv4(ns: seq<int>)
    requires |ns| == 4 && forall i :: 0 <= i < 4 ==> 0 <= ns[i] <= 255
    ensures IsIpv4(Join(Rendered(ns), '.'))
  {
    var parts := Rendered(ns);
    forall i | 0 <= i < 4
      ensures Octet(parts[i]) && '.' !in parts[i]
    {
      OctetOfNumber(ns[i], parts[i]);
      NoDotInNumber(ns[i]);
    }
    SplitJoin(parts, '.');
  }

  /** The four parts of the default DC_IP, written out. */
  lemma DefaultOctetTexts()
    ensures IntToString(149) == "149" && IntToString(154) == "154"
    ensures IntToString(167) == "167" && IntToString(50) == "50"
  {
    ThreeDigits(149);
    ThreeDigits(154);
    ThreeDigits(167);
    assert NatToString(50) == NatToString(5) + [DigitChar(0)];
  }

  lemma RenderedFour(a: int, b: int, c: int, d: int)
    ensures Rendered([a, b, c, d]) == [IntToString(a), IntToString(b), IntToString(c), IntToString(d)]
  {
  }

  /** The default DC_IP is 149, 154, 167 and 50 written out with dots. */
  lemma DefaultDcIpText()
    ensures Join(Rendered([149, 154, 167, 50]), '.') == DefaultDcIp
  {
    DefaultOctetTexts();
    RenderedFour(149, 154, 167, 50);
    var octets := ["149", "154", "167", "50"];
    assert Join(octets[3..], '.') == "50";
    assert Join(octets[2..], '.') == "167.50";
    assert Join(octets[1..], '.') == "154.167.50";
  }

  /** The default DC_IP is a dotted quad with no surrounding space. */
  lemma DefaultDcIpIsQuad()
    ensures IsIpv4(DefaultDcIp)
  {
    DefaultDcIpText();
    QuadIsIpv4([149, 154, 167, 50]);
  }

  /** The default DC_IP passes its own check. */
  lemma DefaultDcIpValid()
    ensures DcIpErrors(None) == []
  {
    DefaultDcIpIsQuad();
    StripOfStripped(DefaultDcIp);
  }

  // ---------------------------------------------------------------------
  // The whole check

  /** The conditions the start-up check enforces, stated field by field. */
  predicate WellFormed(env: Env) {
    && env.apiId.Some? && ParseInt(env.apiId.value).Some? && ParseInt(env.apiId.value).value > 0
    && !Blank(env.apiHash) && |env.apiHash.value| == ApiHashSize
    && !Blank(env.phoneNumber) && PhoneShape(Strip(env.phoneNumber.value))
    && ParseStrippedChatIds(env.allowedChatIds).Some?
    && ParseInt(env.dcId.GetOr(DefaultDcId)).Some?
    && 1 <= ParseInt(env.dcId.GetOr(DefaultDcId)).value <= 5
    && ParseInt(env.dcPort.GetOr(DefaultDcPort)).Some?
    && IsIpv4(Strip(env.dcIp.GetOr(DefaultDcIp)))
  }

  /** `validate_config`: the errors of every field, in the order the
      fields are checked.  The process starts exactly when there are none,
      which is exactly when the environment is well formed. */
  function ValidateConfig(env: Env): (errors: seq<string>)
    ensures errors == [] <==> WellFormed(env)
    ensures errors == ApiIdErrors(env.apiId) + ApiHashErrors(env.apiHash) + PhoneErrors(env.phoneNumber)
                      + ChatIdErrors(env.allowedChatIds) + DcIdErrors(env.dcId) + DcPortErrors(env.dcPort)
                      + DcIpErrors(env.dcIp)
  {
    ChatIdsAgree(env.allowedChatIds);
    ApiIdErrors(env.apiId) + ApiHashErrors(env.apiHash) + PhoneErrors(env.phoneNumber)
    + ChatIdErrors(env.allowedChatIds) + DcIdErrors(env.dcId) + DcPortErrors(env.dcPort)
    + DcIpErrors(env.dcIp)
  }

  // ---------------------------------------------------------------------
  // The allow-list as the program uses it

  /** How the parse treats one comma-separated token: skipped when blank,
      otherwise the value `int()` gives it, or a failure when `int()`
      raises. */
  datatype Token = Skip | Bad | Value(n: int)

  function ReadToken(t: string): Token {
    if BlankToken(t) then Skip
    else
      match ParseInt(t)
      case None => Bad
      case Some(n) => Value(n)
  }

  /** Every token, read. */
  function Reads(tokens: seq<string>): seq<Token> {
    seq(|tokens|, i requires 0 <= i < |tokens| => ReadToken(tokens[i]))
  }

  /** The integers of a run of read tokens, in order; `None` as soon as one
      of them failed. */
  function Collect(rs: seq<Token>): Option<seq<int>>
    decreases |rs|
  {
    if |rs| == 0 then Some([])
    else
      match rs[0]
      case Skip => Collect(rs[1..])
      case Bad => None
      case Value(n) =>
        match Collect(rs[1..])
        case None => None
        case Some(ns) => Some([n] + ns)
  }

  /** The numbers the integer tokens carry, in order, blanks skipped. */
  function Values(rs: seq<Token>): seq<int>
    decreases |rs|
  {
    if |rs| == 0 then [] else (if rs[0].Value? then [rs[0].n] else []) + Values(rs[1..])
  }

  predicate NoBad(rs: seq<Token>) {
    forall i :: 0 <= i < |rs| ==> !rs[i].Bad?
  }

  /** Collecting fails exactly when some token failed; otherwise it gives
      the numbers of the integer tokens, in order, blanks skipped. */
  lemma {:induction false} CollectMeaning(rs: seq<Token>)
    ensures Collect(rs) == if NoBad(rs) then Some(Values(rs)) else None
    decreases |rs|
  {
    if |rs| > 0 {
      CollectMeaning(rs[1..]);
      assert NoBad(rs) <==> !rs[0].Bad? && NoBad(rs[1..]) by {
        assert forall i :: 1 <= i < |rs| ==> rs[i] == rs[1..][i - 1];
      }
      match rs[0]
      case Skip =>
        assert Values(rs) == Values(rs[1..]);
      case Bad =>
      case Value(n) =>
        assert Values(rs) == [n] + Values(rs[1..]);
    }
  }

  /** Tokens that all carry numbers collect to exactly those numbers. */
  lemma {:induction false} CollectValues(rs: seq<Token>, ns: seq<int>)
    requires |rs| == |ns|
    requires forall i :: 0 <= i < |rs| ==> rs[i] == Value(ns[i])
    ensures Collect(rs) == Some(ns)
    decreases |rs|
  {
    if |rs| > 0 {
      assert forall i :: 1 <= i < |rs| ==> rs[1..][i - 1] == rs[i] && ns[1..][i - 1] == ns[i];
      CollectValues(rs[1..], ns[1..]);
      assert [ns[0]] + ns[1..] == ns;
    }
  }

  /** `[int(t) for t in tokens if t.strip()]`: `None` if one of the calls
      raises. */
  function ParseTokens(tokens: seq<string>): Option<seq<int>> {
    Collect(Reads(tokens))
  }

  /** ALLOWED_CHAT_IDS as the program reads it after validation, which
      passes each token to `int()` unstripped: the integers of the
      non-blank comma-separated tokens, in order, or none at all when the
      variable is unset or empty. */
  function ParseAllowedChatIds(v: Option<string>): (r: Option<seq<int>>)
    ensures (v.None? || v.value == "") ==> r == Some([])
  {
    if v.None? || v.value == "" then Some([]) else ParseTokens(Split(v.value, ','))
  }

  /** Every token, stripped. */
  function StripEach(tokens: seq<string>): (r: seq<string>)
    ensures |r| == |tokens|
  {
    seq(|tokens|, i requires 0 <= i < |tokens| => Strip(tokens[i]))
  }

  /** The parse the check vouches for, `int(t.strip())` on every
      non-blank token. */
  function ParseStrippedChatIds(v: Option<string>): (r: Option<seq<int>>)
    ensures (v.None? || v.value == "") ==> r == Some([])
  {
    if v.None? || v.value == "" then Some([]) else ParseTokens(StripEach(Split(v.value, ',')))
  }

  /** A token reads the same stripped and unstripped whenever the
      unstripped read succeeds or the token holds no information
      separator; stripped, it fails exactly when the check complains. */
  lemma ReadStripped(t: string)
    ensures ReadToken(Strip(t)).Bad? <==> !BlankToken(t) && ParseInt(Strip(t)).None?
    ensures !ReadToken(t).Bad? || SeparatorFree(t) ==> ReadToken(Strip(t)) == ReadToken(t)
  {
    StripIdempotent(t);
    ParseIntOfStrip(t);
  }

  /** The check and the stripped parse see the same tokens: the parse
      fails exactly on a non-blank token that is not an integer once
      stripped, which is exactly when the check reports one. */
  lemma TokensAgree(tokens: seq<string>)
    ensures TokenErrors(tokens) == [] <==> ParseTokens(StripEach(tokens)).Some?
  {
    var rs := Reads(StripEach(tokens));
    CollectMeaning(rs);
    TokenErrorsMeaning(tokens);
    forall i | 0 <= i < |tokens|
      ensures rs[i].Bad? <==> !BlankToken(tokens[i]) && ParseInt(Strip(tokens[i])).None?
    {
      ReadStripped(tokens[i]);
    }
  }

  /** The unstripped parse, whenever it succeeds, and whenever no token
      holds an information separator, gives what the stripped parse
      gives. */
  lemma UnstrippedAgrees(tokens: seq<string>)
    ensures ParseTokens(tokens).Some? || (forall i :: 0 <= i < |tokens| ==> SeparatorFree(tokens[i])) ==>
              ParseTokens(tokens) == ParseTokens(StripEach(tokens))
  {
    var rs, ss := Reads(tokens), Reads(StripEach(tokens));
    if ParseTokens(tokens).Some? || (forall i :: 0 <= i < |tokens| ==> SeparatorFree(tokens[i])) {
      CollectMeaning(rs);
      forall i | 0 <= i < |tokens|
        ensures ss[i] == rs[i]
      {
        ReadStripped(tokens[i]);
      }
      assert ss == rs;
    }
  }

  /** Validation of ALLOWED_CHAT_IDS passes exactly when the stripped
      parse succeeds; when the program's own parse succeeds, validation
      has passed and both parses agree. */
  lemma ChatIdsAgree(v: Option<string>)
    ensures ChatIdErrors(v) == [] <==> ParseStrippedChatIds(v).Some?
    ensures ParseAllowedChatIds(v).Some? ==> ParseAllowedChatIds(v) == ParseStrippedChatIds(v)
  {
    if v.Some? && v.value != "" {
      TokensAgree(Split(v.value, ','));
      UnstrippedAgrees(Split(v.value, ','));
    }
  }

  /** An allow-list whose one token ends in U+001F passes validation,
      which strips it to "5", but the program's parse passes it to `int()`
      unstripped, which raises. */
  lemma SeparatorSlipsThrough()
    ensures ChatIdErrors(Some("5\U{1F}")) == []
    ensures ParseAllowedChatIds(Some("5\U{1F}")) == None
  {
    var v := "5\U{1F}";
    var parts := Split(v, ',');
    SplitWithoutSep(v, ',');
    assert parts == [v];
    assert Strip(v) == "5";
    ParseIntToString(5);
    assert !SeparatorFree(v) by { assert IsSeparator(v[1]); }
    TokenErrorsMeaning(parts);
    CollectMeaning(Reads(parts));
    assert Reads(parts)[0].Bad?;
  }

  /** The ids written out with `str()`. */
  function Rendered(ids: seq<int>): seq<string> {
    seq(|ids|, i requires 0 <= i < |ids| => IntToString(ids[i]))
  }

  /** The allow-list written out as `str(id)` joined by commas. */
  function RenderChatIds(ids: seq<int>): string {
    if |ids| == 0 then "" else Join(Rendered(ids), ',')
  }

  /** A written-out integer is a non-blank token that reads back as
      itself. */
  lemma RenderedToken(n: int)
    ensures ReadToken(IntToString(n)) == Value(n)
  {
    var t := IntToString(n);
    assert !IsSpace(t[0]) && !IsSpace(t[|t| - 1]);
    StripOfStripped(t);
    ParseIntToString(n);
  }

  lemma ParseRendered(ids: seq<int>)
    ensures ParseTokens(Rendered(ids)) == Some(ids)
  {
    var rs := Reads(Rendered(ids));
    forall i | 0 <= i < |rs|
      ensures rs[i] == Value(ids[i])
    {
      RenderedToken(ids[i]);
    }
    CollectValues(rs, ids);
  }

  /** Splitting a written-out allow-list at its commas gives back the
      written-out ids. */
  lemma RenderedSplits(ids: seq<int>)
    requires |ids| > 0
    ensures RenderChatIds(ids) != ""
    ensures Split(RenderChatIds(ids), ',') == Rendered(ids)
  {
    var parts := Rendered(ids);
    forall i | 0 <= i < |parts|
      ensures ',' !in parts[i]
    {
      var p := parts[i];
      assert forall k :: 0 <= k < |p| ==> IsDigit(p[k]) || p[k] == '-';
    }
    SplitJoin(parts, ',');
    JoinStartsWithFirst(parts, ',');
  }

  lemma JoinStartsWithFirst(parts: seq<string>, sep: char)
    requires |parts| >= 1
    ensures |Join(parts, sep)| >= |parts[0]|
  {
  }

  /** Any allow-list written out with commas reads back as itself. */
  lemma ChatIdsRoundTrip(ids: seq<int>)
    ensures ParseAllowedChatIds(Some(RenderChatIds(ids))) == Some(ids)
    ensures ParseStrippedChatIds(Some(RenderChatIds(ids))) == Some(ids)
    ensures ChatIdErrors(Some(RenderChatIds(ids))) == []
  {
    if |ids| > 0 {
      RenderedSplits(ids);
      ParseRendered(ids);
    }
    ChatIdsAgree(Some(RenderChatIds(ids)));
  }
}
