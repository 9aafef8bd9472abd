/** Subscriber keys of `extensions/device-pair/notify.ts`, and what re-reading the state file does to them. */
module NotifierKeys {
  import opened Results
  import opened Text

  // ----- decimal integers -----

  function Digit(n: nat): char
    requires n < 10
  {
    "0123456789"[n]
  }

  predicate IsDigit(c: char) {
    '0' <= c <= '9'
  }

  predicate AllDigits(s: string) {
    forall i :: 0 <= i < |s| ==> IsDigit(s[i])
  }

  function ShowNat(n: nat): (s: string)
    ensures s != "" && AllDigits(s)
  {
    if n < 10 then [Digit(n)] else ShowNat(n / 10) + [Digit(n % 10)]
  }

  function ParseNat(s: string): nat
    requires AllDigits(s)
  {
    if s == "" then 0
    else
      assert IsDigit(s[|s|-1]);
      10 * ParseNat(s[..|s|-1]) + (s[|s|-1] as int - '0' as int)
  }

  lemma {:induction false} ParseShowNat(n: nat)
    ensures ParseNat(ShowNat(n)) == n
  {
    assert ParseNat([]) == 0;
    if n < 10 {
      var s := ShowNat(n);
      assert s[..|s|-1] == [];
    } else {
      ParseShowNat(n / 10);
      var s := ShowNat(n);
      assert s[..|s|-1] == ShowNat(n / 10);
    }
  }

  /** `i.toString()` of a bigint. */
  function ShowInt(i: int): string {
    if i < 0 then "-" + ShowNat(-i) else ShowNat(i)
  }

  /** `/^-?\d+$/` */
  predicate IsInteger(s: string) {
    if s != "" && s[0] == '-' then s[1..] != "" && AllDigits(s[1..])
    else s != "" && AllDigits(s)
  }

  /** The value of `BigInt(s)`. */
  function ParseInt(s: string): int
    requires IsInteger(s)
  {
    var value: int := ParseNat(if s[0] == '-' then s[1..] else s);
    if s[0] == '-' then -value else value
  }

  lemma ParseShowInt(i: int)
    ensures IsInteger(ShowInt(i)) && ParseInt(ShowInt(i)) == i
  {
    var digits := ShowNat(if i < 0 then -i else i);
    ParseShowNat(if i < 0 then -i else i);
    hide ShowNat, ParseNat;
    assert ("-" + digits)[1..] == digits && IsDigit(digits[0]);
  }

  /** An integer text is one or more digits with at most one minus sign before them. */
  lemma IntegerSpelledOut(s: string)
    ensures IsInteger(s) <==> exists d :: (s == d || s == "-" + d) && d != "" && forall k :: 0 <= k < |d| ==> d[k] in "0123456789"
  {
    forall c ensures IsDigit(c) <==> c in "0123456789" { DigitSpelledOut(c); }
    if IsInteger(s) {
      if s[0] == '-' {
        assert s == "-" + s[1..];
      }
    }
    if d :| (s == d || s == "-" + d) && d != "" && forall k :: 0 <= k < |d| ==> d[k] in "0123456789" {
      assert IsDigit(d[0]);
      assert s != d ==> s[1..] == d;
    }
  }

  /** The decimal value of digits, and of digits after a minus sign. */
  lemma ParseSpelledOut(digits: string, c: char)
    requires AllDigits(digits) && IsDigit(c)
    ensures ParseNat("") == 0
    ensures AllDigits(digits + [c]) && ParseNat(digits + [c]) + 48 == 10 * ParseNat(digits) + c as int
    ensures digits != "" ==> IsInteger(digits) && ParseInt(digits) == ParseNat(digits)
    ensures digits != "" ==> IsInteger("-" + digits) && ParseInt("-" + digits) + ParseNat(digits) == 0
  {
    assert (digits + [c])[..|digits|] == digits;
    if digits != "" {
      assert IsDigit(digits[0]);
      assert ("-" + digits)[1..] == digits;
    }
  }

  lemma DigitSpelledOut(c: char)
    ensures IsDigit(c) <==> c in "0123456789"
  {
    if IsDigit(c) { assert c == "0123456789"[c as int - '0' as int]; }
  }

  // ----- numbers in decimal, with an exponent from 1e21 on -----

  const EXPONENT_FROM := 1_000_000_000_000_000_000_000

  predicate Plain(i: int) {
    -EXPONENT_FROM < i < EXPONENT_FROM
  }

  /** Drops trailing zeros, but not the last digit. */
  function Significant(digits: string): (r: string)
    requires digits != ""
    ensures r != "" && |r| <= |digits| && r == digits[..|r|]
    ensures forall k :: |r| <= k < |digits| ==> digits[k] == '0'
  {
    if |digits| > 1 && digits[|digits|-1] == '0' then Significant(digits[..|digits|-1]) else digits
  }

  function Mantissa(digits: string): string
    requires digits != ""
  {
    if |digits| == 1 then digits else [digits[0]] + "." + digits[1..]
  }

  function Exponential(n: nat): string {
    Mantissa(Significant(ShowNat(n))) + "e+" + ShowNat(|ShowNat(n)| - 1)
  }

  /** `String(i)` of a number. */
  function ShowNumber(i: int): string {
    if Plain(i) then ShowInt(i) else if i < 0 then "-" + Exponential(-i) else Exponential(i)
  }

  predicate MantissaText(s: string) {
    forall k :: 0 <= k < |s| ==> IsDigit(s[k]) || s[k] == '.'
  }

  lemma SplitAtE(m1: string, e1: string, m2: string, e2: string)
    requires MantissaText(m1) && MantissaText(m2)
    requires m1 + "e+" + e1 == m2 + "e+" + e2
    ensures m1 == m2 && e1 == e2
  {
    var s1, s2 := m1 + "e+" + e1, m2 + "e+" + e2;
    assert s1[|m1|] == 'e' && s2[|m2|] == 'e';
    assert forall k :: 0 <= k < |m1| ==> s1[k] == m1[k] && s1[k] != 'e';
    assert forall k :: 0 <= k < |m2| ==> s2[k] == m2[k] && s2[k] != 'e';
    assert s1[..|m1|] == m1 && s2[..|m2|] == m2;
    assert s1[|m1|+2..] == e1 && s2[|m2|+2..] == e2;
  }

  lemma MantissaInjective(a: string, b: string)
    requires a != "" && b != "" && AllDigits(a) && AllDigits(b)
    ensures MantissaText(Mantissa(a))
    ensures Mantissa(a) == Mantissa(b) ==> a == b
  {
    if Mantissa(a) == Mantissa(b) && |a| > 1 {
      assert Mantissa(a)[0] == a[0] && Mantissa(b)[0] == b[0];
      assert Mantissa(a)[2..] == a[1..] && Mantissa(b)[2..] == b[1..];
      assert a == [a[0]] + a[1..] && b == [b[0]] + b[1..];
    }
  }

  lemma ExponentialInjective(n: nat, m: nat)
    ensures Exponential(n) == Exponential(m) ==> n == m
  {
    var a, b := ShowNat(n), ShowNat(m);
    hide ShowNat, Significant;
    MantissaInjective(Significant(a), Significant(b));
    MantissaInjective(Significant(b), Significant(a));
    if Exponential(n) == Exponential(m) {
      SplitAtE(Mantissa(Significant(a)), ShowNat(|a| - 1), Mantissa(Significant(b)), ShowNat(|b| - 1));
      ParseShowNat(|a| - 1);
      ParseShowNat(|b| - 1);
      forall k | 0 <= k < |a| ensures a[k] == b[k] {
        assert k < |Significant(a)| ==> a[k] == Significant(a)[k];
        assert k < |Significant(b)| ==> b[k] == Significant(b)[k];
      }
      assert a == b;
      ParseShowNat(n);
      ParseShowNat(m);
    }
  }

  lemma ExponentialText(n: nat)
    ensures Exponential(n) != "" && !IsInteger(Exponential(n)) && !IsInteger("-" + Exponential(n))
    ensures IsDigit(Exponential(n)[0])
  {
    var digits := Significant(ShowNat(n));
    var s := Exponential(n);
    hide ShowNat, Significant;
    MantissaInjective(digits, digits);
    assert IsDigit(digits[0]) && s[0] == digits[0];
    assert s[|Mantissa(digits)|] == 'e';
    assert ("-" + s)[1..] == s;
  }

  /** Numbers print alike exactly when they are equal; only plain ones print as integers. */
  lemma ShowNumberInjective(i: int, j: int)
    ensures ShowNumber(i) == ShowNumber(j) <==> i == j
    ensures IsInteger(ShowNumber(i)) <==> Plain(i)
  {
    ParseShowInt(i);
    ParseShowInt(j);
    if !Plain(i) { ExponentialText(if i < 0 then -i else i); }
    if !Plain(j) { ExponentialText(if j < 0 then -j else j); }
    if !Plain(i) && !Plain(j) {
      var n, m := if i < 0 then -i else i, if j < 0 then -j else j;
      ExponentialInjective(n, m);
      hide Exponential;
      assert ("-" + Exponential(n))[1..] == Exponential(n) && ("-" + Exponential(m))[1..] == Exponential(m);
    }
  }

  /**
   * The exponent form of a number from its decimal digits: trailing zeros dropped, a point after the first digit if
   * others follow, and as exponent the number of digits after the first.
   */
  lemma ExponentialSpelledOut(n: nat) returns (first: char, rest: string, zeros: string)
    ensures ShowNat(n) == [first] + rest + zeros
    ensures forall k :: 0 <= k < |zeros| ==> zeros[k] == '0'
    ensures rest == "" || rest[|rest|-1] != '0'
    ensures Exponential(n) == (if rest == "" then [first] else [first] + "." + rest) + "e+" + ShowNat(|rest| + |zeros|)
  {
    var digits := ShowNat(n);
    var kept := Significant(digits);
    SignificantEnds(digits);
    first, rest, zeros := digits[0], kept[1..], digits[|kept|..];
    assert kept == [first] + rest;
    assert digits == kept + zeros;
    assert |digits| - 1 == |rest| + |zeros|;
    hide ShowNat, Significant;
  }

  lemma {:induction false} SignificantEnds(digits: string)
    requires digits != ""
    ensures |Significant(digits)| > 1 ==> Significant(digits)[|Significant(digits)|-1] != '0'
  {
    if |digits| > 1 && digits[|digits|-1] == '0' { SignificantEnds(digits[..|digits|-1]); }
  }

  // ----- subscribers -----

  /** `messageThreadId?: string | number`; a number is the decimal JavaScript prints for it. */
  datatype ThreadId = NoThread | Num(value: real) | Str(text: string)

  /** `Math.trunc` */
  function Trunc(x: real): int {
    if x >= 0.0 then x.Floor else -((-x).Floor)
  }

  /** Truncation drops the fraction, toward zero on both sides. */
  lemma TruncExact(x: real)
    ensures x >= 0.0 ==> Trunc(x) as real <= x < Trunc(x) as real + 1.0
    ensures x <= 0.0 ==> Trunc(x) as real - 1.0 < x <= Trunc(x) as real
  {
  }

  /** `normalizeOptionalString` */
  function OptionalString(s: string): Option<string> {
    if Trim(s) == "" then None else Some(Trim(s))
  }

  function ThreadKey(id: ThreadId): string {
    match id
    case NoThread => ""
    case Num(value) => ShowNumber(Trunc(value))
    case Str(text) =>
      var normalized := Trim(text);
      if normalized == "" then ""
      else if IsInteger(normalized) then ShowInt(ParseInt(normalized))
      else normalized
  }

  datatype Target = Target(to: string, account: Option<string>, thread: ThreadId)

  /** `notifySubscriberKey`; the JSON text of three strings determines them. */
  datatype Key = Key(to: string, account: string, thread: string)

  function AccountPart(account: Option<string>): string {
    if account.Some? then account.value else ""
  }

  function TargetKey(t: Target): Key {
    Key(t.to, AccountPart(t.account), ThreadKey(t.thread))
  }

  /** Two targets have one key exactly if recipient, account and thread agree; no account counts as the empty one. */
  lemma TargetKeysAgree(a: Target, b: Target)
    ensures TargetKey(a) == TargetKey(b) <==> SameChat(a, b)
  {
    ThreadKeysAgree(a.thread, b.thread);
    hide ThreadKey, SameThread, ThreadOf;
  }

  ghost predicate SameChat(a: Target, b: Target) {
    && a.to == b.to
    && SameAccount(a.account, b.account)
    && SameThread(ThreadOf(a.thread), ThreadOf(b.thread))
  }

  ghost predicate SameAccount(a: Option<string>, b: Option<string>) {
    || a == b
    || (a == None && b == Some(""))
    || (a == Some("") && b == None)
  }

  function RereadThread(id: ThreadId): ThreadId {
    match id
    case NoThread => NoThread
    case Num(value) => Num(Trunc(value) as real)
    case Str(text) => if Trim(text) == "" then NoThread else Str(Trim(text))
  }

  function RereadAccount(account: Option<string>): Option<string> {
    if account.Some? then OptionalString(account.value) else None
  }

  /** The target part of what `normalizeNotifyState` makes of a stored subscriber. */
  function Reread(t: Target): Option<Target> {
    if Trim(t.to) == "" then None
    else Some(Target(Trim(t.to), RereadAccount(t.account), RereadThread(t.thread)))
  }

  /**
   * Two numbers have the same key exactly when their integers agree; a number and a numeric text when they agree
   * and the number prints without an exponent; two numeric texts when they agree.
   */
  lemma NumericThreadKeys(a: real, b: real, text: string, other: string)
    requires IsInteger(Trim(text)) && IsInteger(Trim(other))
    ensures ThreadKey(Num(a)) == ThreadKey(Num(b)) <==> Trunc(a) == Trunc(b)
    ensures ThreadKey(Num(a)) == ThreadKey(Str(text)) <==> Trunc(a) == ParseInt(Trim(text)) && Plain(Trunc(a))
    ensures ThreadKey(Str(text)) == ThreadKey(Str(other)) <==> ParseInt(Trim(text)) == ParseInt(Trim(other))
  {
    ShowNumberInjective(Trunc(a), Trunc(b));
    ParseShowInt(Trunc(a));
    ParseShowInt(ParseInt(Trim(text)));
    ParseShowInt(ParseInt(Trim(other)));
    hide Trim, ShowInt, ParseInt, IsInteger, Exponential;
  }

  /**
   * A text that is not an integer shares a key with a number only by spelling out its exponent form, and never with
   * the absence of a thread.
   */
  lemma TextThreadKeys(a: real, text: string)
    requires Trim(text) != "" && !IsInteger(Trim(text))
    ensures ThreadKey(Num(a)) == ThreadKey(Str(text)) <==> !Plain(Trunc(a)) && Trim(text) == ShowNumber(Trunc(a))
    ensures ThreadKey(NoThread) != ThreadKey(Str(text))
  {
    ShowNumberInjective(Trunc(a), Trunc(a));
    hide Trim, IsInteger, ShowNumber;
  }

  /** What a thread id stands for. */
  datatype Thread = Absent | Number(i: int) | Spelled(i: int) | Named(text: string)

  ghost function ThreadOf(id: ThreadId): Thread {
    match id
    case NoThread => Absent
    case Num(value) => Number(Trunc(value))
    case Str(text) =>
      if Trim(text) == "" then Absent
      else if IsInteger(Trim(text)) then Spelled(ParseInt(Trim(text)))
      else Named(Trim(text))
  }

  /** How a number prints: in decimal below 1e21, in exponent form from there on. */
  ghost function Printed(i: int): Thread {
    if -1_000_000_000_000_000_000_000 < i < 1_000_000_000_000_000_000_000 then Spelled(i)
    else Named(if i < 0 then "-" + Exponential(-i) else Exponential(i))
  }

  ghost predicate SameThread(a: Thread, b: Thread) {
    || a == b
    || (a.Number? && b == Printed(a.i))
    || (b.Number? && a == Printed(b.i))
  }

  /** For all pairs of thread ids: one key exactly if they stand for the same, or one is how the other prints. */
  lemma ThreadKeysAgree(a: ThreadId, b: ThreadId)
    ensures ThreadKey(a) == ThreadKey(b) <==> SameThread(ThreadOf(a), ThreadOf(b))
  {
    ThreadKeyKind(a);
    ThreadKeyKind(b);
    var x, y := ThreadOf(a), ThreadOf(b);
    if x.Number? { NumberKey(x.i, y); }
    if y.Number? { NumberKey(y.i, x); }
    if !x.Number? && !y.Number? { OtherKeys(x, y); }
    hide ThreadKey, ThreadOf, ThreadText, IsName, Printed;
  }

  /** A name that is not blank and not an integer. */
  ghost predicate IsName(t: Thread) {
    t.Named? ==> t.text != "" && !IsInteger(t.text)
  }

  ghost function ThreadText(t: Thread): string {
    match t
    case Absent => ""
    case Number(i) => ShowNumber(i)
    case Spelled(i) => ShowInt(i)
    case Named(text) => text
  }

  lemma NumberKey(i: int, t: Thread)
    requires IsName(t)
    ensures ShowNumber(i) == ThreadText(t) <==> t == Number(i) || t == Printed(i)
  {
    PrintedKey(i);
    match t {
      case Absent =>
      case Number(j) => ShowNumberInjective(i, j);
      case Spelled(j) =>
        ParseShowInt(i);
        ParseShowInt(j);
        hide ShowInt, IsInteger, ParseInt, ShowNumber;
      case Named(text) =>
        ParseShowInt(i);
        hide ShowInt, IsInteger, ParseInt, ShowNumber;
    }
  }

  lemma OtherKeys(x: Thread, y: Thread)
    requires IsName(x) && IsName(y) && !x.Number? && !y.Number?
    ensures ThreadText(x) == ThreadText(y) <==> x == y
  {
    if x.Spelled? { ParseShowInt(x.i); }
    if y.Spelled? { ParseShowInt(y.i); }
    assert !IsInteger("");
    hide ShowInt, IsInteger, ParseInt;
  }

  lemma PrintedKey(i: int)
    ensures match Printed(i)
      case Spelled(j) => j == i && ShowNumber(i) == ShowInt(i)
      case Named(text) => ShowNumber(i) == text && !IsInteger(text)
      case Number(_) => false
      case Absent => false
    ensures ShowNumber(i) != ""
  {
    ShowNumberInjective(i, i);
    ParseShowInt(i);
    if !Plain(i) { ExponentialText(if i < 0 then -i else i); }
    hide ShowInt, IsInteger, Exponential;
  }

  lemma ThreadKeyKind(id: ThreadId)
    ensures ThreadKey(id) == ThreadText(ThreadOf(id)) && IsName(ThreadOf(id))
  {
    hide Trim, IsInteger, ParseInt, ShowInt, ShowNumber;
  }

  lemma TruncInteger(i: int)
    ensures Trunc(i as real) == i
  {
  }

  /** Writing and re-reading keeps the thread key of every thread id. */
  lemma RereadThreadKey(id: ThreadId)
    ensures ThreadKey(RereadThread(id)) == ThreadKey(id)
    ensures RereadThread(RereadThread(id)) == RereadThread(id)
  {
    match id {
      case NoThread =>
      case Num(value) => TruncInteger(Trunc(value));
      case Str(text) =>
        TrimIdempotent(text);
        hide Trim, IsInteger, ParseInt, ShowInt, ShowNumber;
    }
  }

  lemma RereadAccountPart(account: Option<string>)
    ensures AccountPart(RereadAccount(account)) == Trim(AccountPart(account))
    ensures Trimmed(AccountPart(account)) <==> Trim(AccountPart(account)) == AccountPart(account)
    ensures RereadAccount(RereadAccount(account)) == RereadAccount(account)
  {
    TrimIdempotent(AccountPart(account));
    TrimIdempotent("");
    hide Trim;
  }

  /** The key of a resolved target survives re-reading exactly when its account id has no outer space. */
  lemma RereadKeepsKey(t: Target)
    requires Trimmed(t.to) && t.to != ""
    ensures Reread(t).Some? && Reread(t).value.to == t.to
    ensures TargetKey(Reread(t).value) == TargetKey(t) <==> Trimmed(AccountPart(t.account))
  {
    hide ThreadKey, RereadThread, RereadAccount;
    RereadThreadKey(t.thread);
    RereadAccountPart(t.account);
  }

  /** One re-reading settles everything. */
  lemma RereadStable(t: Target)
    requires Reread(t).Some?
    ensures Reread(Reread(t).value) == Reread(t)
    ensures Trimmed(AccountPart(Reread(t).value.account))
  {
    TrimIdempotent(t.to);
    TrimIdempotent(AccountPart(t.account));
    hide Trim, RereadThread, RereadAccount;
    RereadThreadKey(t.thread);
    RereadAccountPart(t.account);
  }
}
