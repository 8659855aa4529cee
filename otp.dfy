/**
 * One-time codes: how `generate_otp` turns its random draw into a code,
 * how `save_otp` replaces the rows of an email, and how `verify_otp`
 * accepts and consumes a row.
 */
module Otp {
  import opened Wrappers
  import opened Models

  /** `random.randint(100000, 999999)` draws from this closed range. */
  const MinCode: int := 100000
  const MaxCode: int := 999999

  /** `timedelta(minutes=5)`, in seconds. */
  const OtpLifetime: int := 5 * 60

  predicate InRange(n: int) {
    MinCode <= n <= MaxCode
  }

  // ---------------- decimal strings ----------------

  predicate IsDigit(c: char) {
    '0' <= c <= '9'
  }

  predicate AllDigits(s: string) {
    forall i :: 0 <= i < |s| ==> IsDigit(s[i])
  }

  /** A well-formed code: six decimal digits, the first not zero. */
  predicate IsOtpCode(s: string) {
    |s| == 6 && AllDigits(s) && s[0] != '0'
  }

  function DigitChar(d: nat): (c: char)
    requires d < 10
    ensures IsDigit(c)
  {
    ('0' as int + d) as char
  }

  function DigitValue(c: char): (d: nat)
    requires IsDigit(c)
    ensures d < 10
  {
    c as int - '0' as int
  }

  function Pow10(k: nat): (p: nat)
    ensures p >= 1
  {
    if k == 0 then 1 else 10 * Pow10(k - 1)
  }

  /** Python's `str(n)` for a non-negative integer. */
  function Decimal(n: nat): (s: string)
    ensures |s| > 0 && AllDigits(s)
    ensures n > 0 ==> s[0] != '0'
  {
    if n < 10 then [DigitChar(n)] else Decimal(n / 10) + [DigitChar(n % 10)]
  }

  /** The number a string of digits denotes. */
  function DecimalValue(s: string): nat
    requires AllDigits(s)
  {
    if s == [] then 0 else 10 * DecimalValue(s[..|s| - 1]) + DigitValue(s[|s| - 1])
  }

  lemma DivMod10(q: nat, d: nat)
    requires d < 10
    ensures (10 * q + d) / 10 == q && (10 * q + d) % 10 == d
  {
  }

  /** Reading back what `Decimal` wrote gives the original number. */
  lemma {:induction false} DecimalRoundTrip(n: nat)
    ensures DecimalValue(Decimal(n)) == n
  {
    if n >= 10 {
      var s := Decimal(n);
      assert s[..|s| - 1] == Decimal(n / 10);
      DecimalRoundTrip(n / 10);
    }
  }

  /** A number with k + 1 digits is written with k + 1 characters. */
  lemma {:induction false} DecimalLength(n: nat, k: nat)
    requires Pow10(k) <= n < Pow10(k + 1)
    ensures |Decimal(n)| == k + 1
  {
    if k > 0 {
      DecimalLength(n / 10, k - 1);
    }
  }

  /** A digit string without a leading zero denotes a number of exactly its length. */
  lemma {:induction false} ValueBounds(s: string)
    requires AllDigits(s) && |s| > 0 && s[0] != '0'
    ensures Pow10(|s| - 1) <= DecimalValue(s) < Pow10(|s|)
  {
    if |s| > 1 {
      var p := s[..|s| - 1];
      assert p[0] == s[0];
      ValueBounds(p);
    }
  }

  /** Writing out the number a canonical digit string denotes gives the string back. */
  lemma {:induction false} CanonicalRoundTrip(s: string)
    requires AllDigits(s) && |s| > 0 && s[0] != '0'
    ensures Decimal(DecimalValue(s)) == s
  {
    var n := DecimalValue(s);
    if |s| == 1 {
      assert s[..|s| - 1] == [];
      assert DecimalValue(s[..|s| - 1]) == 0;
      assert n == DigitValue(s[0]);
      assert DigitChar(n) == s[0];
    } else {
      var p := s[..|s| - 1];
      assert p[0] == s[0];
      ValueBounds(p);
      DivMod10(DecimalValue(p), DigitValue(s[|s| - 1]));
      CanonicalRoundTrip(p);
      assert s == p + [s[|s| - 1]];
    }
  }

  // ---------------- generate_otp ----------------

  /** `str(random.randint(100000, 999999))`, given the draw `n`. */
  function GenerateOtp(n: int): (code: string)
    requires InRange(n)
    ensures IsOtpCode(code)
    ensures DecimalValue(code) == n
  {
    DecimalLength(n, 5);
    DecimalRoundTrip(n);
    Decimal(n)
  }

  /** Every well-formed code is generated, by exactly one draw: the one it spells. */
  lemma GenerateOtpOnto(s: string)
    requires IsOtpCode(s)
    ensures InRange(DecimalValue(s)) && GenerateOtp(DecimalValue(s)) == s
  {
    ValueBounds(s);
    CanonicalRoundTrip(s);
  }

  /** Different draws give different codes. */
  lemma GenerateOtpInjective(m: int, n: int)
    requires InRange(m) && InRange(n) && m != n
    ensures GenerateOtp(m) != GenerateOtp(n)
  {
  }

  // ---------------- the otp_codes table ----------------

  /** `db.query(OTPCode).filter(OTPCode.email == email)`. */
  function RowsFor(rows: seq<OtpCode>, email: string): (r: seq<OtpCode>)
    ensures forall o :: o in r <==> o in rows && o.email == email
    ensures |r| <= |rows|
  {
    if rows == [] then []
    else
      if rows[0].email == email then [rows[0]] + RowsFor(rows[1..], email)
      else RowsFor(rows[1..], email)
  }

  /** The rows left by `db.query(OTPCode).filter(OTPCode.email == email).delete()`. */
  function WithoutRowsFor(rows: seq<OtpCode>, email: string): (r: seq<OtpCode>)
    ensures forall o :: o in r <==> o in rows && o.email != email
  {
    if rows == [] then []
    else
      if rows[0].email != email then [rows[0]] + WithoutRowsFor(rows[1..], email)
      else WithoutRowsFor(rows[1..], email)
  }

  /** The filter keeps each row with that email as often as the table holds it, and no other row. */
  lemma {:induction false} RowsForCount(rows: seq<OtpCode>, email: string)
    ensures forall o :: multiset(RowsFor(rows, email))[o] == if o.email == email then multiset(rows)[o] else 0
  {
    if rows != [] {
      assert rows == [rows[0]] + rows[1..];
      RowsForCount(rows[1..], email);
    }
  }

  /** The delete keeps each row with another email as often as the table holds it, and no row with that email. */
  lemma {:induction false} WithoutRowsForCount(rows: seq<OtpCode>, email: string)
    ensures forall o :: multiset(WithoutRowsFor(rows, email))[o] == if o.email != email then multiset(rows)[o] else 0
  {
    if rows != [] {
      assert rows == [rows[0]] + rows[1..];
      WithoutRowsForCount(rows[1..], email);
    }
  }

  /** The table holds at most one row per email. The schema does not say so; `save_otp` keeps it true. */
  ghost predicate OneRowPerEmail(rows: seq<OtpCode>) {
    forall e :: |RowsFor(rows, e)| <= 1
  }

  /** Two rows with one email put at least two rows in that email's selection. */
  lemma {:induction false} RowsForTwo(rows: seq<OtpCode>, i: nat, j: nat)
    requires i < j < |rows|
    ensures rows[i].email == rows[j].email ==> |RowsFor(rows, rows[i].email)| >= 2
  {
    if i == 0 {
      if rows[0].email == rows[j].email {
        assert rows[1..][j - 1] == rows[j];
        assert rows[j] in RowsFor(rows[1..], rows[0].email);
      }
    } else {
      RowsForTwo(rows[1..], i - 1, j - 1);
      assert rows[1..][i - 1] == rows[i] && rows[1..][j - 1] == rows[j];
    }
  }

  /** A table without a row for `e` selects nothing for it. */
  lemma {:induction false} NoRowsFor(rows: seq<OtpCode>, e: string)
    requires forall i :: 0 <= i < |rows| ==> rows[i].email != e
    ensures RowsFor(rows, e) == []
  {
    if rows != [] {
      assert forall i :: 0 <= i < |rows| - 1 ==> rows[1..][i] == rows[i + 1];
      NoRowsFor(rows[1..], e);
    }
  }

  /** With pairwise distinct emails, every email selects at most one row. */
  lemma {:induction false} DistinctOneRow(rows: seq<OtpCode>, e: string)
    requires forall i, j :: 0 <= i < j < |rows| ==> rows[i].email != rows[j].email
    ensures |RowsFor(rows, e)| <= 1
  {
    if rows != [] {
      assert forall i :: 0 <= i < |rows| - 1 ==> rows[1..][i] == rows[i + 1];
      DistinctOneRow(rows[1..], e);
      if rows[0].email == e {
        NoRowsFor(rows[1..], e);
      }
    }
  }

  /** At most one row per email is the same as pairwise distinct emails in the table. */
  lemma OneRowPerEmailDistinct(rows: seq<OtpCode>)
    ensures OneRowPerEmail(rows) <==> forall i, j :: 0 <= i < j < |rows| ==> rows[i].email != rows[j].email
  {
    if OneRowPerEmail(rows) {
      forall i, j | 0 <= i < j < |rows| ensures rows[i].email != rows[j].email {
        RowsForTwo(rows, i, j);
      }
    }
    if forall i, j :: 0 <= i < j < |rows| ==> rows[i].email != rows[j].email {
      forall e ensures |RowsFor(rows, e)| <= 1 {
        DistinctOneRow(rows, e);
      }
    }
  }

  lemma {:induction false} RowsForConcat(a: seq<OtpCode>, b: seq<OtpCode>, e: string)
    ensures RowsFor(a + b, e) == RowsFor(a, e) + RowsFor(b, e)
  {
    if a == [] {
      assert a + b == b;
    } else {
      assert (a + b)[0] == a[0];
      assert (a + b)[1..] == a[1..] + b;
      RowsForConcat(a[1..], b, e);
    }
  }

  lemma {:induction false} RowsForWithout(rows: seq<OtpCode>, email: string, e: string)
    ensures RowsFor(WithoutRowsFor(rows, email), e) == if e == email then [] else RowsFor(rows, e)
  {
    if rows != [] {
      RowsForWithout(rows[1..], email, e);
      if rows[0].email != email {
        RowsForConcat([rows[0]], WithoutRowsFor(rows[1..], email), e);
      }
    }
  }

  /**
   * The table after `save_otp(email)`: all earlier rows for `email` are
   * deleted and one row is added holding the code of draw `n`, expiring five
   * minutes after `now`.
   */
  function Issue(rows: seq<OtpCode>, email: string, n: int, now: Time): (r: seq<OtpCode>)
    requires InRange(n)
    ensures RowsFor(r, email) == [OtpCode(email, GenerateOtp(n), now + OtpLifetime)]
    ensures forall e :: e != email ==> RowsFor(r, e) == RowsFor(rows, e)
    ensures OneRowPerEmail(rows) ==> OneRowPerEmail(r)
  {
    var kept := WithoutRowsFor(rows, email);
    var row := OtpCode(email, GenerateOtp(n), now + OtpLifetime);
    forall e ensures RowsFor(kept + [row], e) == RowsFor(kept, e) + RowsFor([row], e) {
      RowsForConcat(kept, [row], e);
    }
    forall e ensures RowsFor(kept, e) == if e == email then [] else RowsFor(rows, e) {
      RowsForWithout(rows, email, e);
    }
    kept + [row]
  }

  // ---------------- verify_otp ----------------

  predicate Matches(row: OtpCode, email: string, code: string) {
    row.email == email && row.code == code
  }

  /** The position of `db.query(OTPCode).filter(email == email, otp == code).first()`. */
  function FindOtp(rows: seq<OtpCode>, email: string, code: string): (r: Option<nat>)
    ensures r.Some? ==> r.value < |rows| && Matches(rows[r.value], email, code)
    ensures r.Some? ==> forall j :: 0 <= j < r.value ==> !Matches(rows[j], email, code)
    ensures r.None? <==> forall j :: 0 <= j < |rows| ==> !Matches(rows[j], email, code)
  {
    if rows == [] then None
    else if Matches(rows[0], email, code) then Some(0)
    else
      match FindOtp(rows[1..], email, code)
      case None =>
        assert forall j :: 0 < j < |rows| ==> rows[j] == rows[1..][j - 1];
        None
      case Some(k) => Some(k + 1)
  }

  /**
   * The row `verify_otp` accepts: the first row matching the email and the
   * entered code, provided it has not expired (`expires_at < now` rejects,
   * so a row expiring exactly at `now` is still accepted).
   */
  function Accept(rows: seq<OtpCode>, email: string, code: string, now: Time): (r: Option<nat>)
    ensures r.Some? ==> r.value < |rows| && Matches(rows[r.value], email, code)
    ensures r.Some? ==> now <= rows[r.value].expiresAt
    ensures OneRowPerEmail(rows) ==>
      (r.None? <==> forall j :: 0 <= j < |rows| ==> !(Matches(rows[j], email, code) && now <= rows[j].expiresAt))
  {
    match FindOtp(rows, email, code)
    case None => None
    case Some(i) =>
      if rows[i].expiresAt < now then
        assert OneRowPerEmail(rows) ==> forall j :: 0 <= j < |rows| && Matches(rows[j], email, code) ==> j == i by {
          if OneRowPerEmail(rows) {
            forall j | 0 <= j < |rows| && Matches(rows[j], email, code) ensures j == i {
              if j != i {
                assert i < j;
                OnlyRowFor(rows, i, j, email);
              }
            }
          }
        }
        None
      else Some(i)
  }

  /** Two rows for one email make `RowsFor` hold at least two. */
  lemma OnlyRowFor(rows: seq<OtpCode>, i: nat, j: nat, e: string)
    requires i < j < |rows| && rows[i].email == e && rows[j].email == e
    ensures |RowsFor(rows, e)| >= 2
  {
    assert rows == rows[..i] + [rows[i]] + rows[i + 1..];
    RowsForConcat(rows[..i] + [rows[i]], rows[i + 1..], e);
    RowsForConcat(rows[..i], [rows[i]], e);
    assert rows[j] in rows[i + 1..];
  }

  /** The table after `db.delete(record)` of the row at position `i`. */
  function Consume(rows: seq<OtpCode>, i: nat): (r: seq<OtpCode>)
    requires i < |rows|
    ensures |r| == |rows| - 1
    ensures multiset(r) == multiset(rows) - multiset{rows[i]}
    ensures OneRowPerEmail(rows) ==> RowsFor(r, rows[i].email) == []
    ensures forall e :: e != rows[i].email ==> RowsFor(r, e) == RowsFor(rows, e)
    ensures OneRowPerEmail(rows) ==> OneRowPerEmail(r)
  {
    var r := rows[..i] + rows[i + 1..];
    assert multiset(r) == multiset(rows) - multiset{rows[i]} by {
      assert rows == rows[..i] + [rows[i]] + rows[i + 1..];
    }
    forall e ensures |RowsFor(rows, e)| == |RowsFor(r, e)| + (if e == rows[i].email then 1 else 0)
    {
      SplitRowsFor(rows, i, e);
    }
    forall e | e != rows[i].email ensures RowsFor(r, e) == RowsFor(rows, e) {
      SplitRowsFor(rows, i, e);
    }
    r
  }

  lemma SplitRowsFor(rows: seq<OtpCode>, i: nat, e: string)
    requires i < |rows|
    ensures RowsFor(rows, e)
      == RowsFor(rows[..i], e) + (if rows[i].email == e then [rows[i]] else []) + RowsFor(rows[i + 1..], e)
    ensures RowsFor(rows[..i] + rows[i + 1..], e) == RowsFor(rows[..i], e) + RowsFor(rows[i + 1..], e)
  {
    RowsForConcat(rows[..i], rows[i + 1..], e);
    RowsForAround(rows, i, e);
  }

  lemma RowsForAround(rows: seq<OtpCode>, i: nat, e: string)
    requires i < |rows|
    ensures RowsFor(rows, e)
      == RowsFor(rows[..i], e) + (if rows[i].email == e then [rows[i]] else []) + RowsFor(rows[i + 1..], e)
  {
    var front := rows[..i] + [rows[i]];
    assert rows == front + rows[i + 1..];
    RowsForConcat(front, rows[i + 1..], e);
    RowsForConcat(rows[..i], [rows[i]], e);
    assert [rows[i]][1..] == [];
  }

  /**
   * A freshly issued code is accepted for its email exactly when the entered
   * code is that code and the clock has not passed the expiry, the boundary
   * included; every code issued before it is dead.
   */
  lemma IssueThenAccept(rows: seq<OtpCode>, email: string, n: int, issuedAt: Time, code: string, now: Time)
    requires InRange(n)
    ensures Accept(Issue(rows, email, n, issuedAt), email, code, now).Some?
      <==> code == GenerateOtp(n) && now <= issuedAt + OtpLifetime
  {
    var r := Issue(rows, email, n, issuedAt);
    var row := OtpCode(email, GenerateOtp(n), issuedAt + OtpLifetime);
    assert RowsFor(r, email) == [row];
    forall j | 0 <= j < |r| && r[j].email == email ensures r[j] == row {
      assert r[j] in RowsFor(r, email);
    }
    if code == GenerateOtp(n) {
      assert row in RowsFor(r, email);
      var k :| 0 <= k < |r| && r[k] == row;
      assert Matches(r[k], email, code);
    }
  }

  /** Once the accepted row is consumed, the same code is rejected for that email at any time. */
  lemma ConsumedCodeRejected(rows: seq<OtpCode>, email: string, code: string, now: Time, later: Time)
    requires OneRowPerEmail(rows)
    requires Accept(rows, email, code, now).Some?
    ensures Accept(Consume(rows, Accept(rows, email, code, now).value), email, code, later).None?
  {
    var i := Accept(rows, email, code, now).value;
    var r := Consume(rows, i);
    assert RowsFor(r, email) == [];
    forall j | 0 <= j < |r| ensures r[j].email != email {
      assert r[j] in r;
    }
  }
}
