/** The string operations the agent relies on, on strings of code points. */
module Text {

  datatype Option<+T> = None | Some(value: T)
  datatype Result<+T> = Ok(value: T) | Err(message: string)

  // White space as Unicode defines it.
  predicate IsSpace(c: char) {
    || '\t' <= c <= '\r' || c == ' ' || c == '\U{85}' || c == '\U{A0}' || c == '\U{1680}'
    || '\U{2000}' <= c <= '\U{200A}' || c == '\U{2028}' || c == '\U{2029}'
    || c == '\U{202F}' || c == '\U{205F}' || c == '\U{3000}'
  }

  function TrimLeft(s: string): string {
    if s != [] && IsSpace(s[0]) then TrimLeft(s[1..]) else s
  }

  function TrimRight(s: string): string {
    if s != [] && IsSpace(s[|s| - 1]) then TrimRight(s[..|s| - 1]) else s
  }

  function Trim(s: string): string { TrimRight(TrimLeft(s)) }

  // Trimming drops characters, it never brings new ones.
  lemma {:induction false} TrimLeftKeeps(s: string, c: char)
    requires c !in s
    ensures c !in TrimLeft(s)
  {
    if s != [] && IsSpace(s[0]) {
      TrimLeftKeeps(s[1..], c);
    }
  }

  lemma {:induction false} TrimRightKeeps(s: string, c: char)
    requires c !in s
    ensures c !in TrimRight(s)
  {
    if s != [] && IsSpace(s[|s| - 1]) {
      TrimRightKeeps(s[..|s| - 1], c);
    }
  }

  lemma TrimKeeps(s: string, c: char)
    requires c !in s
    ensures c !in Trim(s)
  {
    TrimLeftKeeps(s, c);
    TrimRightKeeps(TrimLeft(s), c);
  }

  // A trimmed string has nothing left to trim.
  lemma TrimTwice(s: string)
    ensures Trim(Trim(s)) == Trim(s)
  {
    TrimmedLeft(s);
    TrimmedRight(TrimLeft(s));
    RightKeepsFront(TrimLeft(s));
  }

  lemma {:induction false} TrimmedLeft(s: string)
    ensures TrimLeft(s) == "" || !IsSpace(TrimLeft(s)[0])
  {
    if s != [] && IsSpace(s[0]) {
      TrimmedLeft(s[1..]);
    }
  }

  lemma {:induction false} TrimmedRight(s: string)
    ensures TrimRight(s) == "" || !IsSpace(TrimRight(s)[|TrimRight(s)| - 1])
  {
    if s != [] && IsSpace(s[|s| - 1]) {
      TrimmedRight(s[..|s| - 1]);
    }
  }

  lemma {:induction false} RightKeepsFront(s: string)
    ensures TrimRight(s) == "" || TrimRight(s)[0] == s[0]
  {
    if s != [] && IsSpace(s[|s| - 1]) {
      RightKeepsFront(s[..|s| - 1]);
    }
  }

  ghost predicate AllSpace(s: string) { forall i :: 0 <= i < |s| ==> IsSpace(s[i]) }

  // Trimming takes white space off both ends, all of it and nothing else.
  lemma TrimIs(s: string) returns (left: string, right: string)
    ensures s == left + Trim(s) + right && AllSpace(left) && AllSpace(right)
    ensures Trim(s) != "" ==> !IsSpace(Trim(s)[0]) && !IsSpace(Trim(s)[|Trim(s)| - 1])
  {
    left := TrimLeftIs(s);
    right := TrimRightIs(TrimLeft(s));
    assert left + (Trim(s) + right) == left + Trim(s) + right;
    TrimmedLeft(s);
    TrimmedRight(TrimLeft(s));
    RightKeepsFront(TrimLeft(s));
  }

  lemma {:induction false} TrimLeftIs(s: string) returns (left: string)
    ensures s == left + TrimLeft(s) && AllSpace(left)
  {
    left := "";
    if s != [] && IsSpace(s[0]) {
      var rest := TrimLeftIs(s[1..]);
      left := [s[0]] + rest;
      assert s == [s[0]] + s[1..];
    }
  }

  lemma {:induction false} TrimRightIs(s: string) returns (right: string)
    ensures s == TrimRight(s) + right && AllSpace(right)
  {
    right := "";
    if s != [] && IsSpace(s[|s| - 1]) {
      var rest := TrimRightIs(s[..|s| - 1]);
      right := rest + [s[|s| - 1]];
      assert s == s[..|s| - 1] + [s[|s| - 1]];
    }
  }

  // Exactly the strings of white space trim to nothing.
  lemma BlankIff(s: string)
    ensures Trim(s) == "" <==> AllSpace(s)
  {
    var left, right := TrimIs(s);
    if Trim(s) != "" {
      assert s[|left|] == Trim(s)[0] && !IsSpace(s[|left|]);
    }
  }

  // The first position of `c`, or the length when `c` does not occur.
  function IndexOf(s: string, c: char): (i: nat)
    ensures i <= |s| && c !in s[..i] && (i < |s| ==> s[i] == c)
  {
    if s == [] || s[0] == c then 0
    else
      var j := IndexOf(s[1..], c);
      assert s[..j + 1] == [s[0]] + s[1..][..j];
      j + 1
  }

  // The pieces of `s` between occurrences of `c`.
  function Split(s: string, c: char): seq<string>
    decreases |s|
  {
    var i := IndexOf(s, c);
    if i == |s| then [s] else [s[..i]] + Split(s[i + 1..], c)
  }

  // The pieces put together again with `c` between them.
  function Join(pieces: seq<string>, c: char): string {
    if pieces == [] then "" else if |pieces| == 1 then pieces[0] else pieces[0] + [c] + Join(pieces[1..], c)
  }

  // Splitting is undone by joining, and no piece contains the separator.
  lemma {:induction false} SplitJoins(s: string, c: char)
    ensures Split(s, c) != [] && Join(Split(s, c), c) == s && forall p :: p in Split(s, c) ==> c !in p
    decreases |s|
  {
    var i := IndexOf(s, c);
    if i < |s| {
      SplitJoins(s[i + 1..], c);
      assert Split(s, c)[1..] == Split(s[i + 1..], c);
      assert s == s[..i] + [c] + s[i + 1..];
    }
  }

  function LowerChar(c: char): char { if 'A' <= c <= 'Z' then c - 'A' + 'a' else c }

  // Lower case, of the ASCII letters.
  function Lower(s: string): string { seq(|s|, i requires 0 <= i < |s| => LowerChar(s[i])) }

  // The same letter, or the upper-case form of it.
  predicate IsUpperOf(c: char, d: char) { 'A' <= c <= 'Z' && 'a' <= d <= 'z' && c as int + 32 == d as int }

  // Lower case changes the ASCII capitals and nothing else.
  lemma LowerIs(s: string)
    ensures |Lower(s)| == |s|
    ensures forall i :: 0 <= i < |s| ==>
              if 'A' <= s[i] <= 'Z' then IsUpperOf(s[i], Lower(s)[i]) else Lower(s)[i] == s[i]
  {}

  predicate OccursAt(s: string, part: string, i: nat) { i + |part| <= |s| && s[i..i + |part|] == part }

  predicate Contains(s: string, part: string) { exists i | 0 <= i <= |s| :: OccursAt(s, part, i) }

  lemma ContainsIff(s: string, part: string)
    ensures Contains(s, part) <==> exists before, after :: s == before + part + after
  {
    if i :| 0 <= i <= |s| && OccursAt(s, part, i) {
      assert s == s[..i] + part + s[i + |part|..];
    }
    if before, after :| s == before + part + after {
      assert OccursAt(s, part, |before|);
    }
  }

  // ------------------------------------------------------------ decimal ids

  function DigitChar(d: nat): char
    requires d < 10
  {
    '0' + d as char
  }

  predicate IsDigit(c: char) { '0' <= c <= '9' }

  function DigitValue(c: char): nat
    requires IsDigit(c)
  {
    (c - '0') as nat
  }

  // Decimal form of a number, as fmt.Sprint and strconv.Itoa print it.
  function Decimal(n: nat): (s: string) {
    if n < 10 then [DigitChar(n)] else Decimal(n / 10) + [DigitChar(n % 10)]
  }

  // A user key the panel understands: a non-empty string of digits.
  predicate IsNumericUser(user: string) {
    user != "" && forall i :: 0 <= i < |user| ==> IsDigit(user[i])
  }

  // The number a string of digits denotes.
  function NumberOf(user: string): nat
    requires forall i :: 0 <= i < |user| ==> IsDigit(user[i])
  {
    if user == "" then 0 else 10 * NumberOf(user[..|user| - 1]) + DigitValue(user[|user| - 1])
  }

  // A printed id is a numeric user key and denotes that id.
  lemma {:induction false} DecimalRoundTrip(n: nat)
    ensures IsNumericUser(Decimal(n)) && NumberOf(Decimal(n)) == n
  {
    if n >= 10 {
      DecimalRoundTrip(n / 10);
      assert Decimal(n)[..|Decimal(n)| - 1] == Decimal(n / 10);
    } else {
      assert Decimal(n)[..0] == "";
    }
  }

  // No number is printed with a leading zero.
  lemma {:induction false} NoLeadingZero(n: nat)
    ensures n > 0 ==> Decimal(n)[0] != '0'
    ensures n == 0 <==> Decimal(n) == "0"
  {
    if n >= 10 {
      NoLeadingZero(n / 10);
      DecimalRoundTrip(n / 10);
      assert Decimal(n)[0] == Decimal(n / 10)[0];
    }
  }

  function Zeros(n: nat): string { seq(n, i => '0') }

  // The numeric user keys are exactly the printed numbers, with zeros in front of them.
  lemma {:induction false} NumericIsPadded(user: string) returns (zeros: nat)
    requires IsNumericUser(user)
    ensures user == Zeros(zeros) + Decimal(NumberOf(user))
  {
    var n := |user| - 1;
    if n == 0 {
      zeros := 0;
      OneDigit(user[0]);
      assert user == [user[0]];
    } else {
      var before := NumericIsPadded(user[..n]);
      zeros := if NumberOf(user[..n]) == 0 then before + 1 else before;
      OneMoreDigit(user, before, NumberOf(user[..n]), user[n]);
    }
  }

  lemma OneMoreDigit(user: string, zeros: nat, m: nat, c: char)
    requires IsDigit(c) && user != "" && user[|user| - 1] == c
    requires user[..|user| - 1] == Zeros(zeros) + Decimal(m)
    ensures user == Zeros(if m == 0 then zeros + 1 else zeros) + Decimal(10 * m + DigitValue(c))
  {
    var d := DigitValue(c);
    assert user == Zeros(zeros) + Decimal(m) + [DigitChar(d)];
    if m == 0 {
      assert Decimal(0) == "0" && Decimal(d) == [DigitChar(d)];
      assert Zeros(zeros + 1) == Zeros(zeros) + "0";
    } else {
      DecimalOneMore(m, d);
    }
  }

  lemma DecimalOneMore(m: nat, d: nat)
    requires m > 0 && d < 10
    ensures Decimal(10 * m + d) == Decimal(m) + [DigitChar(d)]
  {
    assert (10 * m + d) / 10 == m && (10 * m + d) % 10 == d;
  }

  lemma PaddedIsNumeric(zeros: nat, n: nat)
    ensures IsNumericUser(Zeros(zeros) + Decimal(n))
  {
    DecimalRoundTrip(n);
  }

  function PowerOfTen(n: nat): nat { if n == 0 then 1 else 10 * PowerOfTen(n - 1) }

  lemma TenTimes(x: int, p: int, y: int)
    ensures 10 * (x * p + y) == x * (10 * p) + 10 * y
  {}

  // A digit stands for its value times the power of ten of its place.
  lemma {:induction false} PlaceValues(a: string, b: string)
    requires IsNumericUser(a) && forall i :: 0 <= i < |b| ==> IsDigit(b[i])
    ensures NumberOf(a + b) == NumberOf(a) * PowerOfTen(|b|) + NumberOf(b)
    decreases |b|
  {
    if b == "" {
      assert a + b == a;
    } else {
      var n := |b| - 1;
      LastDigit(a, b);
      PlaceValues(a, b[..n]);
      TenTimes(NumberOf(a), PowerOfTen(n), NumberOf(b[..n]));
    }
  }

  lemma LastDigit(a: string, b: string)
    requires IsNumericUser(a) && b != "" && forall i :: 0 <= i < |b| ==> IsDigit(b[i])
    ensures NumberOf(a + b) == 10 * NumberOf(a + b[..|b| - 1]) + DigitValue(b[|b| - 1])
    ensures NumberOf(b) == 10 * NumberOf(b[..|b| - 1]) + DigitValue(b[|b| - 1])
  {
    assert (a + b)[..|a + b| - 1] == a + b[..|b| - 1];
  }

  lemma OneDigit(c: char)
    requires IsDigit(c)
    ensures NumberOf([c]) == c as int - '0' as int
  {
    assert [c][..0] == "";
  }

  lemma DecimalInjective(m: nat, n: nat)
    requires Decimal(m) == Decimal(n)
    ensures m == n
  {
    DecimalRoundTrip(m);
    DecimalRoundTrip(n);
  }
}
