/** The request validators of the HTTP middleware. Each looks at fields of the request body
    and either answers 400 with an error or hands the request on (`next()`); which of the two
    happens is the `Verdict`. Field values are JavaScript values, checked for truthiness the
    way `!x` does. */
module Validation {
  import opened Wrappers
  import opened Text
  import opened Ap2Types

  /** A JavaScript value as it arrives in a parsed JSON body. An object or array carries the
      text `String(x)` gives for it. */
  datatype JsValue =
    | Undefined
    | Null
    | Bool(b: bool)
    | Num(x: real)
    | NaN
    | Str(s: string)
    | Obj(asText: string)

  /** `!!v`: false for undefined, null, false, 0, NaN and the empty string. */
  predicate Truthy(v: JsValue) {
    match v
    case Undefined => false
    case Null => false
    case Bool(b) => b
    case Num(x) => x != 0.0
    case NaN => false
    case Str(s) => s != ""
    case Obj(_) => true
  }

  /** `req.body`: its own properties; a name it lacks reads as `undefined`. */
  type Body = map<string, JsValue>

  function Field(body: Body, name: string): JsValue {
    if name in body then body[name] else Undefined
  }

  /** Either `next()` is called, or a response with this status and `{ error }` is sent. */
  datatype Verdict = Next | Reject(status: int, error: string)

  // ---------------------------------------------------------------------------------------
  // Email format

  /** The characters `\s` matches in a JavaScript regular expression. */
  predicate IsJsSpace(c: char) {
    c == '\t' || c == '\n' || c == '\U{000B}' || c == '\U{000C}' || c == '\r' || c == ' '
    || c == '\U{00A0}' || c == '\U{1680}' || ('\U{2000}' <= c <= '\U{200A}') || c == '\U{2028}' || c == '\U{2029}'
    || c == '\U{202F}' || c == '\U{205F}' || c == '\U{3000}' || c == '\U{FEFF}'
  }

  /** A character of the class `[^\s@]`. */
  predicate PlainChar(c: char) {
    !IsJsSpace(c) && c != '@'
  }

  predicate AllPlain(s: string) {
    forall k :: 0 <= k < |s| ==> PlainChar(s[k])
  }

  /** What `/^[^\s@]+@[^\s@]+\.[^\s@]+$/` accepts: three non-empty runs of plain characters,
      joined by an `@` and then a `.`. */
  ghost predicate MatchesEmailPattern(s: string) {
    exists a, d :: 0 < a && a + 1 < d && d + 1 < |s| && s[a] == '@' && s[d] == '.'
                   && AllPlain(s[..a]) && AllPlain(s[a + 1..d]) && AllPlain(s[d + 1..])
  }

  function CountChar(s: string, c: char): nat {
    if s == [] then 0 else (if s[0] == c then 1 else 0) + CountChar(s[1..], c)
  }

  lemma {:induction false} CountZero(s: string, c: char)
    ensures CountChar(s, c) == 0 <==> forall k :: 0 <= k < |s| ==> s[k] != c
  {
    if s != [] {
      CountZero(s[1..], c);
      assert forall k :: 1 <= k < |s| ==> s[k] == s[1..][k - 1];
    }
  }

  /** With `c` at position `a`, there is exactly one `c` iff it occurs nowhere else. */
  lemma {:induction false} CountOneAt(s: string, c: char, a: nat)
    requires a < |s| && s[a] == c
    ensures CountChar(s, c) == 1 <==> forall k :: 0 <= k < |s| && k != a ==> s[k] != c
  {
    assert forall k :: 1 <= k < |s| ==> s[k] == s[1..][k - 1];
    if a == 0 {
      CountZero(s[1..], c);
    } else {
      CountOneAt(s[1..], c, a - 1);
      if s[0] == c {
        CountZero(s[1..], c);
      }
    }
  }

  /** The domain part has a dot that is neither its first nor its last character. */
  predicate DotInside(d: string) {
    exists j :: 0 < j < |d| - 1 && d[j] == '.'
  }

  /** `isValidEmail(s)`: no whitespace, exactly one `@`, not at the start, and a dot inside
      what follows it. This is the pattern's language. */
  function IsValidEmail(s: string): (ok: bool)
    ensures ok <==> MatchesEmailPattern(s)
  {
    EmailPatternByParts(s);
    (forall k :: 0 <= k < |s| ==> !IsJsSpace(s[k]))
    && CountChar(s, '@') == 1
    && exists a :: 0 < a < |s| && s[a] == '@' && DotInside(s[a + 1..])
  }

  lemma EmailPatternByParts(s: string)
    ensures MatchesEmailPattern(s) <==>
              (forall k :: 0 <= k < |s| ==> !IsJsSpace(s[k]))
              && CountChar(s, '@') == 1
              && exists a :: 0 < a < |s| && s[a] == '@' && DotInside(s[a + 1..])
  {
    if MatchesEmailPattern(s) {
      var a, d :| 0 < a && a + 1 < d && d + 1 < |s| && s[a] == '@' && s[d] == '.'
                  && AllPlain(s[..a]) && AllPlain(s[a + 1..d]) && AllPlain(s[d + 1..]);
      PatternGivesParts(s, a, d);
    }
    if (forall k :: 0 <= k < |s| ==> !IsJsSpace(s[k]))
       && CountChar(s, '@') == 1
       && exists a :: 0 < a < |s| && s[a] == '@' && DotInside(s[a + 1..]) {
      var a :| 0 < a < |s| && s[a] == '@' && DotInside(s[a + 1..]);
      var j :| 0 < j < |s[a + 1..]| - 1 && s[a + 1..][j] == '.';
      PartsGivePattern(s, a, a + 1 + j);
    }
  }

  lemma PatternGivesParts(s: string, a: nat, d: nat)
    requires 0 < a && a + 1 < d && d + 1 < |s| && s[a] == '@' && s[d] == '.'
    requires AllPlain(s[..a]) && AllPlain(s[a + 1..d]) && AllPlain(s[d + 1..])
    ensures forall k :: 0 <= k < |s| ==> !IsJsSpace(s[k])
    ensures CountChar(s, '@') == 1
    ensures DotInside(s[a + 1..])
  {
    forall k | 0 <= k < |s| && k != a
      ensures PlainChar(s[k])
    {
      if k < a {
        assert s[k] == s[..a][k];
      } else if k < d {
        assert s[k] == s[a + 1..d][k - a - 1];
      } else if k > d {
        assert s[k] == s[d + 1..][k - d - 1];
      }
    }
    CountOneAt(s, '@', a);
    assert s[a + 1..][d - a - 1] == '.';
  }

  /** Every character of `s[i..j]` is plain when every one of `s` between `i` and `j` is. */
  lemma SliceAllPlain(s: string, i: nat, j: nat)
    requires i <= j <= |s|
    requires forall k :: i <= k < j ==> PlainChar(s[k])
    ensures AllPlain(s[i..j])
  {
    assert forall k :: 0 <= k < j - i ==> s[i..j][k] == s[i + k];
  }

  lemma PartsGivePattern(s: string, a: nat, d: nat)
    requires 0 < a && a + 1 < d && d + 1 < |s| && s[a] == '@' && s[d] == '.'
    requires forall k :: 0 <= k < |s| ==> !IsJsSpace(s[k])
    requires CountChar(s, '@') == 1
    ensures MatchesEmailPattern(s)
  {
    CountOneAt(s, '@', a);
    SliceAllPlain(s, 0, a);
    SliceAllPlain(s, a + 1, d);
    SliceAllPlain(s, d + 1, |s|);
    assert s[..a] == s[0..a];
    assert s[d + 1..] == s[d + 1..|s|];
  }

  /** `isValidEmail(v)` on any value: the pattern is matched against `String(v)`. For numbers,
      booleans, null and undefined that text holds no `@`, so only strings and objects can match. */
  function EmailOk(v: JsValue): (ok: bool)
    ensures ok ==> v.Str? || v.Obj?
  {
    match v
    case Str(s) => IsValidEmail(s)
    case Obj(t) => IsValidEmail(t)
    case _ => false
  }

  // ---------------------------------------------------------------------------------------
  // Validators

  /** Every one of the named fields is truthy. */
  predicate AllPresent(body: Body, names: seq<string>) {
    forall k :: 0 <= k < |names| ==> Truthy(Field(body, names[k]))
  }

  lemma AllPresentTwo(body: Body, a: string, b: string)
    ensures AllPresent(body, [a, b]) <==> Truthy(Field(body, a)) && Truthy(Field(body, b))
  {
    var names := [a, b];
    assert names[0] == a && names[1] == b;
  }

  lemma AllPresentFive(body: Body, a: string, b: string, c: string, d: string, e: string)
    ensures AllPresent(body, [a, b, c, d, e]) <==>
              && Truthy(Field(body, a)) && Truthy(Field(body, b)) && Truthy(Field(body, c))
              && Truthy(Field(body, d)) && Truthy(Field(body, e))
  {
    var names := [a, b, c, d, e];
    assert names[0] == a && names[1] == b && names[2] == c && names[3] == d && names[4] == e;
  }

  /** `validateCustomerCreate`: both fields present, then the email format. */
  function ValidateCustomerCreate(body: Body): (v: Verdict)
    ensures v == Next <==> Truthy(Field(body, "userId")) && Truthy(Field(body, "email")) && EmailOk(Field(body, "email"))
    ensures !AllPresent(body, ["userId", "email"]) ==> v == Reject(400, "userId and email are required")
    ensures AllPresent(body, ["userId", "email"]) && !EmailOk(Field(body, "email")) ==> v == Reject(400, "Invalid email format")
    ensures v.Reject? ==> v.status == 400
  {
    AllPresentTwo(body, "userId", "email");
    var userId := Field(body, "userId");
    var email := Field(body, "email");
    if !Truthy(userId) || !Truthy(email) then Reject(400, "userId and email are required")
    else if !EmailOk(email) then Reject(400, "Invalid email format")
    else Next
  }

  /** A string of decimal digits. */
  predicate AllDigits(s: string) {
    forall k :: 0 <= k < |s| ==> IsDigit(s[k])
  }

  /** `Number(s)` for a string of the form [sign] digits [. digits]; anything else reads as
      NaN here. */
  function ParseNumber(s: string): (r: Option<real>)
    ensures s == "" ==> r == Some(0.0)
  {
    if s == "" then Some(0.0)
    else if s[0] == '-' then
      match ParseUnsigned(s[1..]) case Some(x) => Some(-x) case None => None
    else if s[0] == '+' then ParseUnsigned(s[1..])
    else ParseUnsigned(s)
  }

  function Pow10(n: nat): (p: nat)
    ensures p >= 1
  {
    if n == 0 then 1 else 10 * Pow10(n - 1)
  }

  lemma {:induction false} DigitsValueNonNegative(s: string)
    requires AllDigits(s)
    ensures DigitsValue(s) >= 0
  {
    if s != [] {
      assert forall k :: 0 <= k < |s| - 1 ==> s[..|s| - 1][k] == s[k];
      DigitsValueNonNegative(s[..|s| - 1]);
    }
  }

  /** Digits, optionally followed by a dot and more digits, with at least one digit in all. */
  function ParseUnsigned(t: string): (r: Option<real>)
    ensures r.Some? ==> r.value >= 0.0
  {
    var dot := if exists i :: 0 <= i < |t| && t[i] == '.' then FirstDot(t) else |t|;
    var whole := t[..dot];
    var frac := if dot < |t| then t[dot + 1..] else "";
    if (|whole| == 0 && |frac| == 0) || !AllDigits(whole) || !AllDigits(frac) then None
    else
      DigitsValueNonNegative(whole);
      DigitsValueNonNegative(frac);
      Some(DigitsValue(whole) as real + DigitsValue(frac) as real / Pow10(|frac|) as real)
  }

  function FirstDot(t: string): (i: nat)
    requires exists i :: 0 <= i < |t| && t[i] == '.'
    ensures i < |t| && t[i] == '.'
  {
    if t[0] == '.' then 0 else FirstDot(t[1..]) + 1
  }

  /** The number `amount <= 0` compares: `None` stands for NaN, which makes every comparison false. */
  function ToNumber(v: JsValue): Option<real> {
    match v
    case Undefined => None
    case Null => Some(0.0)
    case Bool(b) => Some(if b then 1.0 else 0.0)
    case Num(x) => Some(x)
    case NaN => None
    case Str(s) => ParseNumber(s)
    case Obj(t) => ParseNumber(t)
  }

  /** `amount <= 0`. */
  predicate AtMostZero(v: JsValue) {
    match ToNumber(v)
    case Some(x) => x <= 0.0
    case None => false
  }

  /** `validateTransfer`: every field present (an amount of 0 counts as missing), then a
      positive amount. */
  function ValidateTransfer(body: Body): (v: Verdict)
    ensures v == Next <==>
              && Truthy(Field(body, "customerId")) && Truthy(Field(body, "fromWalletId"))
              && Truthy(Field(body, "toWalletId")) && Truthy(Field(body, "amount")) && Truthy(Field(body, "currency"))
              && !AtMostZero(Field(body, "amount"))
    ensures !AllPresent(body, ["customerId", "fromWalletId", "toWalletId", "amount", "currency"]) ==>
              v == Reject(400, "Missing required fields")
    ensures (AllPresent(body, ["customerId", "fromWalletId", "toWalletId", "amount", "currency"])
             && AtMostZero(Field(body, "amount"))) ==> v == Reject(400, "Amount must be positive")
    ensures v.Reject? ==> v.status == 400
  {
    AllPresentFive(body, "customerId", "fromWalletId", "toWalletId", "amount", "currency");
    if !Truthy(Field(body, "customerId")) || !Truthy(Field(body, "fromWalletId")) || !Truthy(Field(body, "toWalletId"))
       || !Truthy(Field(body, "amount")) || !Truthy(Field(body, "currency"))
    then Reject(400, "Missing required fields")
    else if AtMostZero(Field(body, "amount")) then Reject(400, "Amount must be positive")
    else Next
  }

  /** `validRoles.includes(role)`: the role is one of the three role names, as a string. */
  predicate IsRoleName(v: JsValue) {
    v.Str? && v.s in ["initiator", "validator", "executor"]
  }

  /** `validateAgent`: every field present, then a known role. */
  function ValidateAgent(body: Body): (v: Verdict)
    ensures v == Next <==>
              && Truthy(Field(body, "userId")) && Truthy(Field(body, "agentName")) && Truthy(Field(body, "agentType"))
              && Truthy(Field(body, "publicKey")) && exists r: AgentRole :: Field(body, "role") == Str(RoleText(r))
    ensures !AllPresent(body, ["userId", "agentName", "agentType", "publicKey", "role"]) ==>
              v == Reject(400, "Missing required fields")
    ensures (AllPresent(body, ["userId", "agentName", "agentType", "publicKey", "role"])
             && forall r: AgentRole :: Field(body, "role") != Str(RoleText(r))) ==> v == Reject(400, "Invalid agent role")
    ensures v.Reject? ==> v.status == 400
  {
    AllPresentFive(body, "userId", "agentName", "agentType", "publicKey", "role");
    if !Truthy(Field(body, "userId")) || !Truthy(Field(body, "agentName")) || !Truthy(Field(body, "agentType"))
       || !Truthy(Field(body, "publicKey")) || !Truthy(Field(body, "role"))
    then Reject(400, "Missing required fields")
    else if !IsRoleName(Field(body, "role")) then
      assert forall r: AgentRole :: Field(body, "role") != Str(RoleText(r));
      Reject(400, "Invalid agent role")
    else
      assert Field(body, "role") == Str(RoleText(Initiator)) || Field(body, "role") == Str(RoleText(Validator))
             || Field(body, "role") == Str(RoleText(Executor));
      Next
  }

  // ---------------------------------------------------------------------------------------
  // Consequences

  /** A missing field is reported first, whatever the email looks like. */
  lemma MissingFieldBeforeFormat(body: Body)
    requires !Truthy(Field(body, "userId"))
    ensures ValidateCustomerCreate(body) == Reject(400, "userId and email are required")
  {
  }

  /** An address with two `@` anywhere is refused. */
  lemma SecondAtRefused(s: string, a: nat, b: nat)
    requires a < b < |s| && s[a] == '@' && s[b] == '@'
    ensures !IsValidEmail(s)
  {
    CountOneAt(s, '@', a);
  }

  /** An address with whitespace anywhere is refused. */
  lemma SpaceRefused(s: string, k: nat)
    requires k < |s| && IsJsSpace(s[k])
    ensures !IsValidEmail(s)
  {
  }

  /** An amount of 0 is reported as missing, not as not positive. */
  lemma ZeroAmountIsMissing(body: Body)
    requires Field(body, "amount") == Num(0.0)
    ensures ValidateTransfer(body) == Reject(400, "Missing required fields")
  {
  }

  /** A negative amount is refused once every field is present. */
  lemma NegativeAmountRefused(body: Body, x: real)
    requires x < 0.0 && Field(body, "amount") == Num(x)
    requires Truthy(Field(body, "customerId")) && Truthy(Field(body, "fromWalletId"))
    requires Truthy(Field(body, "toWalletId")) && Truthy(Field(body, "currency"))
    ensures ValidateTransfer(body) == Reject(400, "Amount must be positive")
  {
  }

  /** An amount that is not a number at all gets through: `"abc" <= 0` is false. */
  lemma NonNumericAmountPasses(body: Body)
    requires Field(body, "amount") == Str("abc")
    requires Truthy(Field(body, "customerId")) && Truthy(Field(body, "fromWalletId"))
    requires Truthy(Field(body, "toWalletId")) && Truthy(Field(body, "currency"))
    ensures ValidateTransfer(body) == Next
  {
    assert "abc"[0] != '.' && "bc"[0] != '.' && "c"[0] != '.';
    assert !AllDigits("abc") by { assert !IsDigit("abc"[0]); }
  }

  /** Every role the protocol defines passes the role check. */
  lemma EveryRoleAccepted(body: Body, r: AgentRole)
    requires Truthy(Field(body, "userId")) && Truthy(Field(body, "agentName"))
    requires Truthy(Field(body, "agentType")) && Truthy(Field(body, "publicKey"))
    requires Field(body, "role") == Str(RoleText(r))
    ensures ValidateAgent(body) == Next
  {
  }
}
