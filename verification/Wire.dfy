/** The chat-room message and its length-prefixed wire form. */
module Wire {
  import opened Common

  type Payload = seq<byte>

  const CONTENT_MAX: nat := 1024

  /** Two bytes of length in network order, then the content. */
  function Encode(m: Payload): (s: seq<byte>)
    requires |m| <= CONTENT_MAX
    ensures |s| == |m| + 2 && s[2..] == m
    ensures s[0] as int * 256 + s[1] as int == |m|
  {
    [(|m| / 256) as byte, (|m| % 256) as byte] + m
  }

  /** `ntohs` of the received header. */
  function HeaderValue(h: seq<byte>): (n: nat)
    requires |h| == 2
  {
    h[0] as int * 256 + h[1] as int
  }

  predicate AllFit(ms: seq<Payload>)
  {
    forall i :: 0 <= i < |ms| ==> |ms[i]| <= CONTENT_MAX
  }

  function EncodeAll(ms: seq<Payload>): (s: seq<byte>)
    requires AllFit(ms)
  {
    if ms == [] then [] else Encode(ms[0]) + EncodeAll(ms[1..])
  }

  lemma {:induction false} EncodeAllConcat(a: seq<Payload>, b: seq<Payload>)
    requires AllFit(a) && AllFit(b)
    ensures AllFit(a + b) && EncodeAll(a + b) == EncodeAll(a) + EncodeAll(b)
  {
    if a == [] {
      assert a + b == b;
    } else {
      EncodeAllConcat(a[1..], b);
      assert (a + b)[0] == a[0] && (a + b)[1..] == a[1..] + b;
      assert EncodeAll(a + b) == Encode(a[0]) + EncodeAll(a[1..] + b);
    }
  }

  lemma EncodeOne(m: Payload)
    requires |m| <= CONTENT_MAX
    ensures EncodeAll([m]) == Encode(m)
  {
    assert [m][1..] == [];
  }

  /** One more message adds its encoding at the end. */
  lemma EncodeAllSnoc(a: seq<Payload>, m: Payload)
    requires AllFit(a) && |m| <= CONTENT_MAX
    ensures AllFit(a + [m]) && EncodeAll(a + [m]) == EncodeAll(a) + Encode(m)
  {
    EncodeOne(m);
    EncodeAllConcat(a, [m]);
  }

  /** The stream splits at message `d` into what came before, its frame, and the rest. */
  lemma {:induction false} StreamAt(ms: seq<Payload>, d: nat)
    requires AllFit(ms) && d < |ms|
    ensures AllFit(ms[..d]) && AllFit(ms[d + 1..])
    ensures EncodeAll(ms) == EncodeAll(ms[..d]) + Encode(ms[d]) + EncodeAll(ms[d + 1..])
  {
    if d > 0 {
      StreamAt(ms[1..], d - 1);
      assert ms[1..][..d - 1] == ms[..d][1..];
      assert ms[1..][d..] == ms[d + 1..];
    }
  }

  /** The header announces the content: decoding inverts encoding. */
  lemma HeaderRoundTrip(m: Payload)
    requires |m| <= CONTENT_MAX
    ensures HeaderValue(Encode(m)[..2]) == |m| && Encode(m)[2..] == m
  {
  }

  /** Framing is unambiguous: equal streams come from equal message lists. */
  lemma {:induction false} FramingIsInjective(a: seq<Payload>, b: seq<Payload>)
    requires AllFit(a) && AllFit(b) && EncodeAll(a) == EncodeAll(b)
    ensures a == b
  {
    if a != [] && b != [] {
      var s := EncodeAll(a);
      HeaderRoundTrip(a[0]);
      HeaderRoundTrip(b[0]);
      assert s[..2] == Encode(a[0])[..2] && s[..2] == Encode(b[0])[..2];
      assert s[..2 + |a[0]|] == Encode(a[0]) && s[..2 + |b[0]|] == Encode(b[0]);
      assert s[2 + |a[0]|..] == EncodeAll(a[1..]) && s[2 + |b[0]|..] == EncodeAll(b[1..]);
      FramingIsInjective(a[1..], b[1..]);
      assert a == [a[0]] + a[1..] && b == [b[0]] + b[1..];
    }
  }

  /** The message object: a length field and a fixed content buffer, standing for `text`. */
  class Message {
    var contentSize: nat
    const content: array<byte>
    ghost var text: Payload

    ghost predicate Valid()
      reads this, content
    {
      content.Length == CONTENT_MAX && contentSize <= CONTENT_MAX && content[..contentSize] == text
    }

    constructor ()
      ensures Valid() && text == [] && fresh(content)
    {
      content := new byte[CONTENT_MAX];
      contentSize := 0;
      text := [];
    }

    /** Longer sources overrun the content buffer. */
    method SetContent(src: seq<byte>)
      requires Valid() && |src| <= CONTENT_MAX
      modifies this, content
      ensures Valid() && text == src
    {
      forall i | 0 <= i < |src| { content[i] := src[i]; }
      contentSize := |src| % 0x1_0000;
      text := src;
    }

    /** Gives back what was set. */
    method GetContent() returns (s: seq<byte>)
      requires Valid()
      ensures s == text
    {
      s := content[..contentSize];
    }

    /** What goes on the wire decodes back to what was set. */
    method GetBuf() returns (s: seq<byte>)
      requires Valid()
      ensures |text| <= CONTENT_MAX && s == Encode(text)
      ensures HeaderValue(s[..2]) == |text| && s[2..] == text
    {
      HeaderRoundTrip(text);
      var buf := seq(4096, _ => 0 as byte);
      buf := Splice(buf, 0, [(contentSize / 256) as byte, (contentSize % 256) as byte]);
      buf := Splice(buf, 2, content[..contentSize]);
      s := buf[..2 + contentSize];
    }
  }
}
