/** What a client's message becomes when the server announces it, and how a client reads it back. */
module Announcement {
  import opened Common
  import opened Wire

  function Decimal(n: nat): (s: seq<byte>)
    ensures |s| >= 1
  {
    if n < 10 then [(48 + n) as byte] else Decimal(n / 10) + [(48 + n % 10) as byte]
  }

  /** The bytes before the first `b`. */
  function Before(s: seq<byte>, b: byte): (r: seq<byte>)
    ensures r <= s && b !in r
    ensures r == s || s[|r|] == b
  {
    if s == [] || s[0] == b then [] else [s[0]] + Before(s[1..], b)
  }

  /** What `c_str()` and %s make of a message. */
  function CString(p: Payload): (s: Payload)
    ensures s <= p && 0 !in s && (s == p || p[|s|] == 0)
  {
    Before(p, 0)
  }

  /** snprintf of "guest(%d):%s". */
  function Announce(id: nat, p: Payload): (s: Payload)
  {
    [103, 117, 101, 115, 116, 40] + Decimal(id) + [41, 58] + CString(p)
  }

  // ---- Reading it back ----

  function Pow10(k: nat): (r: nat)
  {
    if k == 0 then 1 else 10 * Pow10(k - 1)
  }

  predicate Digits(s: seq<byte>)
  {
    forall i :: 0 <= i < |s| ==> 48 <= s[i] <= 57
  }

  /** The value of a row of digits, the first weighing most. */
  function Value(s: seq<byte>): (n: nat)
    requires Digits(s)
  {
    if s == [] then 0 else (s[0] as int - 48) * Pow10(|s| - 1) + Value(s[1..])
  }

  predicate Spells(s: seq<byte>, text: string)
  {
    |s| == |text| && forall i :: 0 <= i < |s| ==> s[i] as int == text[i] as int
  }

  /** Reads "guest(<number>):<text>" from the left. */
  function Read(s: seq<byte>): (r: Option<(nat, seq<byte>)>)
  {
    if |s| < 6 || !Spells(s[..6], "guest(") then None
    else
      var number := Before(s[6..], 41);
      var rest := s[6 + |number|..];
      if |rest| < 2 || !Spells(rest[..2], "):") || number == [] || !Digits(number) then None
      else Some((Value(number), rest[2..]))
  }

  lemma TensMove(lead: int, tens: int)
    ensures lead * (10 * tens) == 10 * (lead * tens)
  {
  }

  lemma {:induction false} ValueSnoc(s: seq<byte>, d: byte)
    requires Digits(s) && 48 <= d <= 57
    ensures Digits(s + [d]) && Value(s + [d]) == 10 * Value(s) + d as int - 48
  {
    var t := s + [d];
    if s == [] {
      assert t[1..] == [] && Value(t) == (d as int - 48) * Pow10(0);
    } else {
      ValueSnoc(s[1..], d);
      assert t[1..] == s[1..] + [d];
      TensMove(s[0] as int - 48, Pow10(|s| - 1));
      assert Pow10(|s|) == 10 * Pow10(|s| - 1);
    }
  }

  /** The decimal form of a number is digits, has no leading zero and has that number as its value. */
  lemma {:induction false} DecimalMeansNumber(n: nat)
    ensures Digits(Decimal(n)) && Value(Decimal(n)) == n
    ensures n > 0 ==> Decimal(n)[0] != 48
  {
    if n < 10 {
      assert Decimal(n)[1..] == [] && Pow10(0) == 1;
    } else {
      DecimalMeansNumber(n / 10);
      ValueSnoc(Decimal(n / 10), (48 + n % 10) as byte);
    }
  }

  /** Only the first `b` counts. */
  lemma {:induction false} BeforeStops(s: seq<byte>, b: byte, rest: seq<byte>)
    requires b !in s
    ensures Before(s + [b] + rest, b) == s
  {
    if s != [] {
      BeforeStops(s[1..], b, rest);
      assert (s + [b] + rest)[1..] == s[1..] + [b] + rest;
    }
  }

  /** Whatever the reader is given in this form it takes apart at the first closing parenthesis. */
  lemma ReadsParts(number: seq<byte>, text: seq<byte>)
    requires number != [] && Digits(number)
    ensures Read([103, 117, 101, 115, 116, 40] + number + [41, 58] + text) == Some((Value(number), text))
  {
    var s := [103, 117, 101, 115, 116, 40] + number + [41, 58] + text;
    assert s[..6] == [103, 117, 101, 115, 116, 40];
    assert s[6..] == number + [41] + ([58] + text);
    BeforeStops(number, 41, [58] + text);
    var rest := s[6 + |number|..];
    assert rest == [41, 58] + text;
    assert rest[..2] == [41, 58] && rest[2..] == text;
  }

  /** Everything a broadcast says can be read from it: who spoke and the text up to its first NUL. */
  lemma AnnouncementReadsBack(id: nat, p: Payload)
    ensures Read(Announce(id, p)) == Some((id, CString(p)))
  {
    DecimalMeansNumber(id);
    ReadsParts(Decimal(id), CString(p));
  }

  lemma {:induction false} DecimalIsShort(n: nat, digits: nat, bound: nat)
    requires 0 < digits && bound == Pow10(digits) && n < bound
    ensures |Decimal(n)| <= digits
    decreases digits
  {
    if n >= 10 {
      DecimalIsShort(n / 10, digits - 1, Pow10(digits - 1));
    }
  }

  /** Up to 1006 bytes, whatever the id, the announcement fits a message. */
  lemma AnnouncementFits(id: nat, p: Payload)
    requires id <= INT32_MAX && |p| <= CONTENT_MAX - 18
    ensures |Announce(id, p)| <= CONTENT_MAX
  {
    assert Pow10(10) == 10 * Pow10(9) == 100 * Pow10(8) == 1000 * Pow10(7) == 10000 * Pow10(6);
    assert Pow10(6) == 10 * Pow10(5) == 100 * Pow10(4) == 1000 * Pow10(3) == 10000 * Pow10(2);
    assert Pow10(2) == 100;
    DecimalIsShort(id, 10, 10000000000);
  }
}
