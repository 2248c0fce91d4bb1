/** The bounded formatter: recursion over rendered arguments, writing in place. */
module Formatter {
  import opened Common

  const NUL: char := '\0'

  predicate NulFree(s: string)
  {
    NUL !in s
  }

  predicate EscapeAt(f: string)
  {
    2 <= |f| && f[0] == '%' && f[1] == '%'
  }

  /** The text the code produces in unlimited space: an escape writes its percent sign without
      moving on, so it survives only at the end of the format. */
  function Produced(f: string, args: seq<string>): (t: string)
    decreases |f|, 0
  {
    if f == "" || args == [] then f
    else if EscapeAt(f) then Settled(true, f[2..], args)
    else if f[0] == '%' then args[0] + Produced(f[1..], args[1..])
    else [f[0]] + Produced(f[1..], args)
  }

  /** What is still to come; `pending` says a percent sign sits unprotected under the cursor. */
  function Settled(pending: bool, f: string, args: seq<string>): (t: string)
    decreases |f|, 1
  {
    if pending && f == "" then "%" else Produced(f, args)
  }

  /** The format left for the argument-free base case, if the recursion gets there with `room`
      characters of space. */
  function LeftForBase(f: string, args: seq<string>, room: int): (r: Option<string>)
    decreases |f|
  {
    if args == [] then Some(f)
    else if f == "" || room <= 0 then None
    else if EscapeAt(f) then LeftForBase(f[2..], args, room)
    else if f[0] == '%' then LeftForBase(f[1..], args[1..], room - Min(|args[0]|, room))
    else LeftForBase(f[1..], args, room - 1)
  }

  predicate Throws(f: string, args: seq<string>, room: int)
  {
    var left := LeftForBase(f, args, room);
    left.Some? && '%' in left.value
  }

  /** The `size` characters from `at` hold as much of `t` as fits before a NUL, then NULs. */
  ghost predicate Shows(b: seq<char>, at: nat, size: int, t: string)
    requires at + size <= |b|
  {
    forall j :: at <= j < at + size ==> b[j] == if j - at < size - 1 && j - at < |t| then t[j - at] else NUL
  }

  ghost predicate OnlyWithin(b: seq<char>, was: seq<char>, at: nat, size: int)
  {
    |b| == |was| && forall i :: 0 <= i < |b| && !(at <= i < at + size) ==> b[i] == was[i]
  }

  /** `snprintf(buf, size, "%s", s)`, which is all that `v2s` does. */
  method Render(buf: array<char>, at: nat, size: nat, s: string) returns (n: nat)
    requires 1 <= size && at + size <= buf.Length
    modifies buf
    ensures n == |s|
    ensures forall j :: at <= j < at + Min(|s|, size - 1) ==> buf[j] == s[j - at]
    ensures buf[at + Min(|s|, size - 1)] == NUL
    ensures forall i :: 0 <= i < buf.Length && !(at <= i <= at + Min(|s|, size - 1)) ==> buf[i] == old(buf[i])
  {
    var k := Min(|s|, size - 1);
    forall i | 0 <= i < k { buf[at + i] := s[i]; }
    buf[at + k] := NUL;
    n := |s|;
  }

  /** A percent sign must be followed by another one for ever: there is none. */
  lemma {:induction false} PercentsNeverEnd(f: string, k: nat)
    requires forall i :: 0 <= i < |f| && f[i] == '%' ==> i + 1 < |f| && f[i + 1] == '%'
    requires k < |f|
    ensures f[k] != '%'
    decreases |f| - k
  {
    if f[k] == '%' { PercentsNeverEnd(f, k + 1); }
  }

  /** `*cur = c`. */
  method Put(buf: array<char>, cur: nat, c: char)
    requires cur < buf.Length
    modifies buf
    ensures buf[..] == old(buf[..])[cur := c]
  {
    buf[cur] := c;
  }

  /** The base case: any percent sign left throws, escaped or not. */
  method FmtBase(buf: array<char>, at: nat, size: int, f: string) returns (threw: bool)
    requires 1 <= size && at + size <= buf.Length
    requires Shows(buf[..], at, size, "")
    modifies buf
    ensures threw <==> '%' in f
    ensures OnlyWithin(buf[..], old(buf[..]), at, size)
    ensures !threw ==> Shows(buf[..], at, size, f)
  {
    var i := 0;
    while i < |f|
      invariant 0 <= i <= |f|
      invariant forall k :: 0 <= k < i && f[k] == '%' ==> k + 1 < |f| && f[k + 1] == '%'
    {
      if f[i] == '%' && !(i + 1 < |f| && f[i + 1] == '%') {
        return true;
      }
      i := i + 1;
    }
    forall k | 0 <= k < |f| ensures f[k] != '%' { PercentsNeverEnd(f, k); }
    threw := false;
    var cur, end := at, at + size - 1;
    i := 0;
    while cur < end && i < |f|
      invariant 0 <= i <= |f| && cur == at + i <= end
      invariant OnlyWithin(buf[..], old(buf[..]), at, size)
      invariant forall j :: at <= j < at + size ==> buf[j] == if j - at < i then f[j - at] else NUL
    {
      buf[cur] := f[i];
      cur, i := cur + 1, i + 1;
    }
    if cur < end {
      buf[cur] := NUL;
    }
    buf[end] := NUL;
  }

  /** Where the formatting loop stands: `done` is written, a pending percent sign may sit under the
      cursor, everything beyond is NUL. */
  ghost predicate Progress(b: seq<char>, at: nat, size: int, done: string, pending: bool)
    requires at + size <= |b|
  {
    && |done| <= size - 1
    && (pending ==> |done| < size - 1)
    && forall j :: at <= j < at + size ==>
         b[j] == if j - at < |done| then done[j - at] else if j - at == |done| && pending then '%' else NUL
  }

  /** A literal character is copied and ends any pending escape. */
  lemma LiteralStep(f: string, i: nat, args: seq<string>, pending: bool, room: int)
    requires i < |f| && args != [] && f[i] != '%' && 0 < room
    ensures Settled(pending, f[i..], args) == [f[i]] + Settled(false, f[i + 1..], args)
    ensures LeftForBase(f[i..], args, room) == LeftForBase(f[i + 1..], args, room - 1)
  {
    assert f[i..][1..] == f[i + 1..];
  }

  /** An escape leaves its percent sign pending. */
  lemma EscapeStep(f: string, i: nat, args: seq<string>, pending: bool, room: int)
    requires i + 1 < |f| && args != [] && f[i] == '%' && f[i + 1] == '%' && 0 < room
    ensures Settled(pending, f[i..], args) == Settled(true, f[i + 2..], args)
    ensures LeftForBase(f[i..], args, room) == LeftForBase(f[i + 2..], args, room)
  {
    assert f[i..][2..] == f[i + 2..];
  }

  /** A placeholder takes the next argument. */
  lemma PlaceholderStep(f: string, i: nat, args: seq<string>, pending: bool, room: int)
    requires i < |f| && args != [] && f[i] == '%' && !(i + 1 < |f| && f[i + 1] == '%') && 0 < room
    ensures Settled(pending, f[i..], args) == args[0] + Produced(f[i + 1..], args[1..])
    ensures LeftForBase(f[i..], args, room) == LeftForBase(f[i + 1..], args[1..], room - Min(|args[0]|, room))
  {
    assert f[i..][1..] == f[i + 1..];
  }

  /** The argument branch: render in place, then format the rest behind it. */
  method FmtArg(buf: array<char>, at: nat, size: int, f: string, args: seq<string>, cur: nat, i: nat,
                ghost was: seq<char>, ghost done: string, ghost pending: bool) returns (threw: bool)
    requires at + size <= buf.Length && cur == at + |done| < at + size - 1 && args != []
    requires Going(buf[..], was, at, size, f, args, i, done, pending)
    requires i < |f| && f[i] == '%' && !(i + 1 < |f| && f[i + 1] == '%')
    modifies buf
    ensures threw <==> Throws(f, args, size - 1)
    ensures OnlyWithin(buf[..], was, at, size)
    ensures !threw ==> Shows(buf[..], at, size, Produced(f, args))
    decreases |args|, 0
  {
    var end := at + size - 1;
    var remain := end - cur + 1;
    PlaceholderStep(f, i, args, pending, end - cur);
    var n := Render(buf, cur, remain, args[0]);
    var step := if n < remain - 1 then n else remain - 1;
    var next := cur + step;
    ghost var mid := buf[..];
    threw := Fmt(buf, next, end - next + 1, f[i + 1..], args[1..]);
    if !threw {
      ghost var rest := Produced(f[i + 1..], args[1..]);
      ShowsBehind(mid, buf[..], at, size, done + args[0], next, rest);
      assert done + args[0] + rest == done + (args[0] + rest);
    }
  }

  /** Text shown behind a prefix that has been written, or cut off at the end, shows the whole. */
  lemma ShowsBehind(mid: seq<char>, b: seq<char>, at: nat, size: int, prefix: string, next: nat, rest: string)
    requires 0 < size && at + size <= |mid| == |b| && next == at + Min(|prefix|, size - 1)
    requires forall j :: at <= j < next ==> mid[j] == prefix[j - at]
    requires OnlyWithin(b, mid, next, at + size - next)
    requires Shows(b, next, at + size - next, rest)
    ensures Shows(b, at, size, prefix + rest)
  {
    forall j | at <= j < at + size
      ensures b[j] == if j - at < size - 1 && j - at < |prefix + rest| then (prefix + rest)[j - at] else NUL
    {
      if j < next {
        assert b[j] == mid[j];
      } else {
        assert b[j] == if j - next < at + size - next - 1 && j - next < |rest| then rest[j - next] else NUL;
      }
    }
  }

  /** The recursive formatter. The buffer region starts out zero-filled. */
  method Fmt(buf: array<char>, at: nat, size: int, f: string, args: seq<string>) returns (threw: bool)
    requires at + size <= buf.Length && (args == [] ==> 1 <= size)
    requires Shows(buf[..], at, size, "")
    modifies buf
    ensures threw <==> Throws(f, args, size - 1)
    ensures OnlyWithin(buf[..], old(buf[..]), at, size)
    ensures !threw ==> Shows(buf[..], at, size, Produced(f, args))
    decreases |args|, 2
  {
    if args == [] {
      threw := FmtBase(buf, at, size, f);
      return;
    }
    if |f| <= 0 || size <= 0 {
      return false;
    }
    threw := FmtLoop(buf, at, size, f, args);
  }

  /** The formatting loop has dealt with `f[..i]` and written `done`. */
  ghost predicate Going(b: seq<char>, was: seq<char>, at: nat, size: int, f: string, args: seq<string>,
                        i: nat, done: string, pending: bool)
  {
    && at + size <= |b| && i <= |f|
    && Progress(b, at, size, done, pending) && OnlyWithin(b, was, at, size)
    && Produced(f, args) == done + Settled(pending, f[i..], args)
    && LeftForBase(f, args, size - 1) == LeftForBase(f[i..], args, size - 1 - |done|)
  }

  lemma GoingOverLiteral(b: seq<char>, was: seq<char>, at: nat, size: int, f: string, args: seq<string>,
                         i: nat, done: string, pending: bool)
    requires Going(b, was, at, size, f, args, i, done, pending)
    requires i < |f| && args != [] && f[i] != '%' && |done| < size - 1
    ensures Going(b[at + |done| := f[i]], was, at, size, f, args, i + 1, done + [f[i]], false)
  {
    LiteralStep(f, i, args, pending, size - 1 - |done|);
    var rest := Settled(false, f[i + 1..], args);
    assert done + ([f[i]] + rest) == (done + [f[i]]) + rest;
  }

  lemma GoingOverEscape(b: seq<char>, was: seq<char>, at: nat, size: int, f: string, args: seq<string>,
                        i: nat, done: string, pending: bool)
    requires Going(b, was, at, size, f, args, i, done, pending)
    requires i + 1 < |f| && args != [] && f[i] == '%' && f[i + 1] == '%' && |done| < size - 1
    ensures Going(b[at + |done| := '%'], was, at, size, f, args, i + 2, done, true)
  {
    EscapeStep(f, i, args, pending, size - 1 - |done|);
  }

  /** The loop ends with the buffer full or the format used up; either way the text is there. */
  lemma GoingEnds(b: seq<char>, was: seq<char>, at: nat, size: int, f: string, args: seq<string>,
                  i: nat, done: string, pending: bool)
    requires Going(b, was, at, size, f, args, i, done, pending)
    requires args != [] && (|done| == size - 1 || i == |f|)
    ensures Shows(b, at, size, Produced(f, args)) && !Throws(f, args, size - 1)
  {
    var rest := Settled(pending, f[i..], args);
    var t := Produced(f, args);
    assert t == done + rest;
    if i == |f| {
      assert f[i..] == "" && Produced("", args) == "";
      assert rest == if pending then "%" else "";
      assert LeftForBase("", args, size - 1 - |done|) == None;
    }
    forall j | at <= j < at + size
      ensures b[j] == if j - at < size - 1 && j - at < |t| then t[j - at] else NUL
    {
      if j - at < |done| { assert t[j - at] == done[j - at]; }
    }
  }

  /** The copying loop of the recursive formatter. */
  method FmtLoop(buf: array<char>, at: nat, size: int, f: string, args: seq<string>) returns (threw: bool)
    requires at + size <= buf.Length && args != [] && f != "" && 1 <= size
    requires Shows(buf[..], at, size, "")
    modifies buf
    ensures threw <==> Throws(f, args, size - 1)
    ensures OnlyWithin(buf[..], old(buf[..]), at, size)
    ensures !threw ==> Shows(buf[..], at, size, Produced(f, args))
    decreases |args|, 1
  {
    var cur: nat, end: nat := at, at + size - 1;
    var i: nat := 0;
    ghost var was, done: string, pending := buf[..], "", false;
    assert f[0..] == f;
    while cur < end && i < |f|
      invariant cur == at + |done| <= end
      invariant Going(buf[..], was, at, size, f, args, i, done, pending)
      decreases |f| - i
    {
      ghost var b := buf[..];
      if f[i] == '%' {
        if i + 1 < |f| && f[i + 1] == '%' {
          GoingOverEscape(b, was, at, size, f, args, i, done, pending);
          Put(buf, cur, '%');
          i := i + 2;
          pending := true;
        } else {
          threw := FmtArg(buf, at, size, f, args, cur, i, was, done, pending);
          return;
        }
      } else {
        GoingOverLiteral(b, was, at, size, f, args, i, done, pending);
        Put(buf, cur, f[i]);
        done, pending := done + [f[i]], false;
        cur, i := cur + 1, i + 1;
      }
    }
    GoingEnds(buf[..], was, at, size, f, args, i, done, pending);
    return false;
  }

  /** The expansion a reader of the format expects: escapes give one percent sign. */
  function Ideal(f: string, args: seq<string>): (t: string)
  {
    if f == "" then ""
    else if EscapeAt(f) then "%" + Ideal(f[2..], args)
    else if f[0] == '%' && args != [] then args[0] + Ideal(f[1..], args[1..])
    else [f[0]] + Ideal(f[1..], args)
  }

  /** A text as it is written in a format: every percent sign twice. */
  function Escaped(t: string): (f: string)
  {
    if t == "" then "" else (if t[0] == '%' then "%%" else [t[0]]) + Escaped(t[1..])
  }

  /** The format with these texts and a placeholder between each two. */
  function Template(texts: seq<string>): (f: string)
    requires texts != []
  {
    Escaped(texts[0]) + if |texts| == 1 then "" else "%" + Template(texts[1..])
  }

  /** The texts with the arguments between them. */
  function Filled(texts: seq<string>, args: seq<string>): (t: string)
    requires |texts| == |args| + 1
  {
    texts[0] + if args == [] then "" else args[0] + Filled(texts[1..], args[1..])
  }

  lemma IdealFirst(c: char, rest: string, args: seq<string>)
    ensures Ideal((if c == '%' then "%%" else [c]) + rest, args) == [c] + Ideal(rest, args)
  {
    var all := (if c == '%' then "%%" else [c]) + rest;
    if c == '%' { assert all[2..] == rest; } else { assert all[1..] == rest; }
  }

  lemma {:induction false} IdealUnescapes(t: string, f: string, args: seq<string>)
    ensures Ideal(Escaped(t) + f, args) == t + Ideal(f, args)
  {
    if t == "" {
      assert Escaped(t) + f == f;
    } else {
      var first := if t[0] == '%' then "%%" else [t[0]];
      Regroup(first, Escaped(t[1..]), f);
      IdealFirst(t[0], Escaped(t[1..]) + f, args);
      IdealUnescapes(t[1..], f, args);
      Regroup([t[0]], t[1..], Ideal(f, args));
      assert t == [t[0]] + t[1..];
    }
  }

  /** The expected expansion is what the format was written for: texts come out as they are and each
      placeholder is its argument. Two placeholders need a text between them, and a text after a
      placeholder cannot begin with a percent sign, since both would read as an escape. */
  lemma {:induction false} IdealFillsTemplates(texts: seq<string>, args: seq<string>)
    requires |texts| == |args| + 1
    requires forall i :: 1 <= i < |args| ==> texts[i] != ""
    requires forall i :: 1 <= i < |texts| && texts[i] != "" ==> texts[i][0] != '%'
    ensures Ideal(Template(texts), args) == Filled(texts, args)
  {
    if args == [] {
      IdealUnescapes(texts[0], "", args);
      assert Template(texts) == Escaped(texts[0]) + "";
    } else {
      var f, rest := "%" + Template(texts[1..]), Template(texts[1..]);
      IdealFillsTemplates(texts[1..], args[1..]);
      IdealUnescapes(texts[0], f, args);
      assert f[1..] == rest;
      assert !EscapeAt(f) by { TemplateStart(texts[1..]); }
    }
  }

  lemma TemplateStart(texts: seq<string>)
    requires texts != [] && (texts[0] == "" ==> |texts| == 1) && (texts[0] != "" ==> texts[0][0] != '%')
    ensures Template(texts) == "" || Template(texts)[0] != '%'
  {
  }

  function Placeholders(f: string): (n: nat)
  {
    if f == "" then 0
    else if EscapeAt(f) then Placeholders(f[2..])
    else (if f[0] == '%' then 1 else 0) + Placeholders(f[1..])
  }

  /** Escapes with something after them. */
  function LostEscapes(f: string): (n: nat)
  {
    if f == "" then 0
    else if EscapeAt(f) then (if |f| == 2 then 0 else 1) + LostEscapes(f[2..])
    else LostEscapes(f[1..])
  }

  predicate NoEscape(f: string)
  {
    forall i :: 0 <= i < |f| - 1 ==> !(f[i] == '%' && f[i + 1] == '%')
  }

  lemma NoEscapeTail(f: string)
    requires NoEscape(f) && f != ""
    ensures NoEscape(f[1..]) && !EscapeAt(f)
  {
    assert |f| > 1 ==> !(f[0] == '%' && f[0 + 1] == '%');
    forall i | 0 <= i < |f[1..]| - 1 ensures !(f[1..][i] == '%' && f[1..][i + 1] == '%') {
      assert !(f[i + 1] == '%' && f[i + 1 + 1] == '%');
    }
  }

  lemma {:induction false} LiteralsAreIdeal(f: string)
    requires '%' !in f
    ensures Ideal(f, []) == f
  {
    if f != "" { LiteralsAreIdeal(f[1..]); }
  }

  /** Without escapes and with arguments enough, the result is the expected one in any space. */
  lemma {:induction false} PlainFormatsAreIdeal(f: string, args: seq<string>, room: int)
    requires NoEscape(f) && Placeholders(f) <= |args|
    ensures Produced(f, args) == Ideal(f, args) && !Throws(f, args, room)
    decreases |f|
  {
    if args == [] {
      PercentsArePlaceholders(f);
      LiteralsAreIdeal(f);
    } else if f != "" {
      NoEscapeTail(f);
      if f[0] == '%' {
        PlainFormatsAreIdeal(f[1..], args[1..], room - Min(|args[0]|, room));
      } else {
        PlainFormatsAreIdeal(f[1..], args, room - 1);
      }
    }
  }

  /** All escapes, wherever they stand. */
  function Escapes(f: string): (n: nat)
  {
    if f == "" then 0 else if EscapeAt(f) then 1 + Escapes(f[2..]) else Escapes(f[1..])
  }

  /** The escapes after the last placeholder. */
  function TailEscapes(f: string): (n: nat)
  {
    if f == "" then 0
    else if EscapeAt(f) then (if Placeholders(f[2..]) == 0 then 1 else 0) + TailEscapes(f[2..])
    else TailEscapes(f[1..])
  }

  lemma {:induction false} PercentsAreCounted(f: string)
    ensures '%' in f <==> 0 < Placeholders(f) || 0 < TailEscapes(f)
  {
    if f != "" && !EscapeAt(f) {
      PercentsAreCounted(f[1..]);
      assert f == [f[0]] + f[1..];
    }
  }

  /** Given room, any format throws exactly when placeholders outnumber the arguments, or use them up
      with an escape still to come. */
  lemma {:induction false} ThrowsIff(f: string, args: seq<string>, room: int)
    requires |Produced(f, args)| < room
    ensures Throws(f, args, room) <==>
            |args| < Placeholders(f) || (|args| == Placeholders(f) && 0 < TailEscapes(f))
    decreases |f|
  {
    if args == [] {
      PercentsAreCounted(f);
    } else if f != "" {
      if EscapeAt(f) {
        if f[2..] == "" {
          assert LeftForBase("", args, room) == None && Placeholders("") == 0;
        } else {
          ThrowsIff(f[2..], args, room);
        }
      } else if f[0] == '%' {
        ThrowsIff(f[1..], args[1..], room - |args[0]|);
      } else {
        ThrowsIff(f[1..], args, room - 1);
      }
    }
  }

  lemma {:induction false} PercentsArePlaceholders(f: string)
    requires NoEscape(f)
    ensures '%' in f <==> 0 < Placeholders(f)
  {
    if f != "" {
      NoEscapeTail(f);
      PercentsArePlaceholders(f[1..]);
      assert f == [f[0]] + f[1..];
    }
  }

  /** While arguments outnumber placeholders, each escape that is not at the very end costs one
      character, and nothing throws. */
  lemma {:induction false} EscapesAreLost(f: string, args: seq<string>, room: int)
    requires Placeholders(f) < |args|
    ensures |Produced(f, args)| + LostEscapes(f) == |Ideal(f, args)|
    ensures LostEscapes(f) == 0 ==> Produced(f, args) == Ideal(f, args)
    ensures !Throws(f, args, room)
    decreases |f|
  {
    if f != "" {
      if EscapeAt(f) {
        EscapesAreLost(f[2..], args, room);
      } else if f[0] == '%' {
        EscapesAreLost(f[1..], args[1..], room - Min(|args[0]|, room));
      } else {
        EscapesAreLost(f[1..], args, room - 1);
      }
    }
  }

  /** With exactly as many arguments as placeholders, each escape costs one character unless it
      throws. */
  lemma {:induction false} EscapesAreLostExactly(f: string, args: seq<string>, room: int)
    requires Placeholders(f) == |args| && |Produced(f, args)| < room
    ensures !Throws(f, args, room) ==> |Produced(f, args)| + Escapes(f) == |Ideal(f, args)|
    decreases |f|
  {
    if args == [] {
      if '%' !in f {
        LiteralsAreIdeal(f);
        NoPercentNoEscape(f);
      }
    } else if EscapeAt(f) {
      EscapesAreLostExactly(f[2..], args, room);
    } else if f[0] == '%' {
      EscapesAreLostExactly(f[1..], args[1..], room - |args[0]|);
    } else {
      EscapesAreLostExactly(f[1..], args, room - 1);
    }
  }

  lemma {:induction false} NoPercentNoEscape(f: string)
    requires '%' !in f
    ensures Escapes(f) == 0
  {
    if f != "" { NoPercentNoEscape(f[1..]); }
  }

  /** Counting from the left finds an escape exactly when two percent signs are adjacent. */
  lemma {:induction false} EscapesAreAdjacent(f: string)
    ensures Escapes(f) == 0 <==> NoEscape(f)
  {
    if f != "" {
      if EscapeAt(f) {
        assert f[0] == '%' && f[0 + 1] == '%';
      } else {
        EscapesAreAdjacent(f[1..]);
        if NoEscape(f) { NoEscapeTail(f); }
        if NoEscape(f[1..]) {
          forall i | 0 <= i < |f| - 1 ensures !(f[i] == '%' && f[i + 1] == '%') {
            if i > 0 { assert f[1..][i - 1] == f[i] && f[1..][i - 1 + 1] == f[i + 1]; }
          }
        }
      }
    }
  }

  /** What a caller can check about a format and the number of arguments. */
  predicate Sound(f: string, n: nat)
  {
    || (Placeholders(f) < n && LostEscapes(f) == 0)
    || (Placeholders(f) == n && Escapes(f) == 0)
  }

  /** Given room, the code delivers the expected expansion exactly for sound calls: with arguments to
      spare an escape may stand at the very end, with exactly enough there may be none, and with too
      few it throws. */
  lemma IdealIffSound(f: string, args: seq<string>, room: int)
    requires |Produced(f, args)| < room
    ensures !Throws(f, args, room) && Produced(f, args) == Ideal(f, args) <==> Sound(f, |args|)
  {
    if Placeholders(f) < |args| {
      EscapesAreLost(f, args, room);
    } else {
      ThrowsIff(f, args, room);
      if Placeholders(f) == |args| {
        EscapesAreLostExactly(f, args, room);
        EscapesAreAdjacent(f);
        if Escapes(f) == 0 { PlainFormatsAreIdeal(f, args, room); }
      }
    }
  }

  /** As much of a text as `room` characters hold. */
  function Fitting(t: string, room: nat): (r: string)
  {
    t[..Min(|t|, room)]
  }

  /** The call shows the expected expansion, cut to the space, whatever the space. */
  ghost predicate AlwaysIdeal(f: string, args: seq<string>)
  {
    forall room: nat :: !Throws(f, args, room) && Fitting(Produced(f, args), room) == Fitting(Ideal(f, args), room)
  }

  /** Over all buffer sizes, too, the sound calls are exactly the ones that come out as expected. */
  lemma AlwaysIdealIffSound(f: string, args: seq<string>)
    ensures AlwaysIdeal(f, args) <==> Sound(f, |args|)
  {
    var plenty: nat := |Produced(f, args)| + |Ideal(f, args)| + 1;
    IdealIffSound(f, args, plenty);
    if AlwaysIdeal(f, args) {
      assert !Throws(f, args, plenty);
      assert Fitting(Produced(f, args), plenty) == Fitting(Ideal(f, args), plenty);
    }
    if Sound(f, |args|) {
      EscapesAreAdjacent(f);
      forall room: nat
        ensures !Throws(f, args, room) && Fitting(Produced(f, args), room) == Fitting(Ideal(f, args), room)
      {
        if Placeholders(f) < |args| {
          EscapesAreLost(f, args, room);
        } else {
          PlainFormatsAreIdeal(f, args, room);
        }
      }
    }
  }

  /** An everyday call that loses its percent sign: "%%a%" with "x" gives "ax" instead of "%ax". */
  lemma EscapeIsLost()
    ensures Produced("%%a%", ["x"]) == "ax" && Ideal("%%a%", ["x"]) == "%ax"
    ensures forall room :: !Throws("%%a%", ["x"], room)
  {
    var f, args := "%%a%", ["x"];
    assert f[2..] == "a%" && f[2..][1..] == "%" && f[2..][1..][1..] == "" && args[1..] == [];
    assert Produced("%", args) == "x" + Produced("", []);
    assert Produced("a%", args) == "a" + Produced("%", args);
    assert Ideal("%", args) == "x" + Ideal("", []);
    assert Ideal("a%", args) == "a" + Ideal("%", args);
    forall room ensures !Throws(f, args, room) {
      assert LeftForBase("%", args, room - 1) == None || LeftForBase("%", args, room - 1) == Some("");
      assert LeftForBase("a%", args, room) == None || LeftForBase("a%", args, room) == LeftForBase("%", args, room - 1);
    }
  }

  lemma {:induction false} ProducedIsNulFree(f: string, args: seq<string>)
    requires NulFree(f) && forall k :: 0 <= k < |args| ==> NulFree(args[k])
    ensures NulFree(Produced(f, args))
    decreases |f|
  {
    if f != "" && args != [] {
      if EscapeAt(f) {
        if f[2..] != "" { ProducedIsNulFree(f[2..], args); }
      } else if f[0] == '%' {
        ProducedIsNulFree(f[1..], args[1..]);
      } else {
        ProducedIsNulFree(f[1..], args);
      }
    }
  }

  /** The std::string overload: a zero-filled 4096-byte scratch buffer read back as a C string. */
  method FmtString(f: string, args: seq<string>) returns (threw: bool, text: string)
    requires NulFree(f) && forall k :: 0 <= k < |args| ==> NulFree(args[k])
    ensures threw <==> Throws(f, args, 4095)
    ensures !threw ==> text == Produced(f, args)[..Min(|Produced(f, args)|, 4095)]
    ensures NoEscape(f) && Placeholders(f) <= |args| ==> !threw && text == Ideal(f, args)[..Min(|Ideal(f, args)|, 4095)]
  {
    var tmp := new char[4096](_ => NUL);
    threw := Fmt(tmp, 0, 4096, f, args);
    ghost var t := Produced(f, args);
    ProducedIsNulFree(f, args);
    text := "";
    if !threw {
      var n := 0;
      while tmp[n] != NUL
        invariant 0 <= n < 4096 && n <= |t| && tmp[..n] == t[..n]
        decreases 4096 - n
      {
        n := n + 1;
      }
      text := tmp[..n];
    }
    if NoEscape(f) && Placeholders(f) <= |args| { PlainFormatsAreIdeal(f, args, 4095); }
  }
}
