/** The growable octet vector under the output `String`, and the escaper that writes into it. */
module OutputVec {
  import opened Bytes
  import opened Utf8
  import opened Escaping

  class ByteVec {
    var data: array<byte>
    var len: nat

    ghost predicate Valid()
      reads this
    {
      len <= data.Length
    }

    ghost function Contents(): bytes
      requires Valid()
      reads this, data
    {
      data[..len]
    }

    constructor ()
      ensures Valid() && fresh(data) && Contents() == []
    {
      data, len := new byte[0], 0;
    }

    /** Makes room. What fresh memory holds beyond `len` is unspecified. */
    method Reserve(additional: nat)
      requires Valid()
      modifies this
      ensures Valid() && (data == old(data) || fresh(data))
      ensures Contents() == old(Contents()) && len == old(len)
      ensures len + additional <= data.Length
    {
      if data.Length < len + additional {
        var bigger := new byte[len + additional];
        forall i | 0 <= i < len {
          bigger[i] := data[i];
        }
        data := bigger;
      }
    }

    method Push(b: byte)
      requires Valid()
      modifies this, data
      ensures Valid() && (data == old(data) || fresh(data))
      ensures Contents() == old(Contents()) + [b]
    {
      Reserve(1);
      data[len] := b;
      len := len + 1;
    }

    method ExtendFromSlice(s: bytes)
      requires Valid()
      modifies this, data
      ensures Valid() && (data == old(data) || fresh(data))
      ensures Contents() == old(Contents()) + s
    {
      Reserve(|s|);
      forall i | 0 <= i < |s| {
        data[len + i] := s[i];
      }
      len := len + |s|;
    }

    /** `Vec::set_len`: exposes whatever the reserved memory happens to hold. */
    method SetLen(n: nat)
      requires Valid() && n <= data.Length
      modifies this`len
      ensures Valid() && len == n
    {
      len := n;
    }

    /** `get_unchecked_mut`: the caller must know that the index is in bounds. */
    method SetUnchecked(i: nat, b: byte)
      requires Valid() && i < len
      modifies data
      ensures Contents() == old(Contents())[i := b]
    {
      data[i] := b;
    }

    /** `String::truncate`, which panics off a character boundary. */
    method Truncate(k: nat)
      requires Valid()
      requires k <= len ==> IsCharBoundary(Contents(), k)
      modifies this`len
      ensures Valid()
      ensures Contents() == if k <= |old(Contents())| then old(Contents())[..k] else old(Contents())
    {
      if k <= len {
        len := k;
      }
    }

    method Clear()
      requires Valid()
      modifies this`len
      ensures Valid() && Contents() == []
    {
      len := 0;
    }
  }

  method PushQuoteMark(q: Quoting, output: ByteVec)
    requires output.Valid()
    modifies output, output.data
    ensures output.Valid() && (output.data == old(output.data) || fresh(output.data))
    ensures output.Contents() == old(output.Contents()) + QuoteMark(q)
  {
    match q
    case Unquoted =>
    case Quoted => output.Push(QUOTE);
  }

  /** The first pass: how many octets need an escape. */
  method CountToEscape(q: Quoting, s: bytes) returns (toEscape: nat)
    ensures toEscape == CountEscapes(q, s)
  {
    toEscape := 0;
    for i := 0 to |s|
      invariant toEscape == CountEscapes(q, s[..i])
    {
      EscapeOneMore(q, s, i);
      if MustEscape(q, s[i]) {
        toEscape := toEscape + 1;
      }
    }
    assert s[..|s|] == s;
  }

  /** One round of the second pass: writes `b` at `index`, after a backslash if it needs one. */
  method WriteByteAt(q: Quoting, output: ByteVec, index: nat, b: byte) returns (next: nat)
    requires output.Valid() && index + |EscapeByte(q, b)| <= output.len
    modifies output.data
    ensures output.len == old(output.len) && output.Valid()
    ensures next == index + |EscapeByte(q, b)|
    ensures output.Contents()[..next] == old(output.Contents()[..index]) + EscapeByte(q, b)
  {
    next := index;
    if MustEscape(q, b) {
      output.SetUnchecked(next, BACKSLASH);
      next := next + 1;
    }
    output.SetUnchecked(next, b);
    next := next + 1;
  }

  /**
    `write_escaped_impl`: counts the octets to escape, exposes that much
    unspecified memory, and fills it by index. The contract leaves no octet of
    the exposed memory unspecified.
   */
  method WriteEscaped(q: Quoting, output: ByteVec, s: bytes)
    requires output.Valid()
    modifies output, output.data
    ensures output.Valid() && (output.data == old(output.data) || fresh(output.data))
    ensures output.Contents() == old(output.Contents()) + Written(q, s)
  {
    var toEscape := CountToEscape(q, s);
    PushQuoteMark(q, output);
    FillEscaped(q, output, s, toEscape);
    PushQuoteMark(q, output);
    ConcatThree(old(output.Contents()), QuoteMark(q), Escape(q, s), QuoteMark(q));
  }

  lemma ConcatThree(start: bytes, a: bytes, b: bytes, c: bytes)
    ensures ((start + a) + b) + c == start + ((a + b) + c)
  {
  }

  /** The second pass: a plain copy when nothing needs an escape. */
  method FillEscaped(q: Quoting, output: ByteVec, s: bytes, toEscape: nat)
    requires output.Valid() && toEscape == CountEscapes(q, s)
    modifies output, output.data
    ensures output.Valid() && (output.data == old(output.data) || fresh(output.data))
    ensures output.Contents() == old(output.Contents()) + Escape(q, s)
  {
    EscapeLength(q, s);
    if toEscape == 0 {
      output.ExtendFromSlice(s);
    } else {
      var additional := |s| + toEscape;
      output.Reserve(additional);
      var index := output.len;
      output.SetLen(index + additional);
      assert output.Contents()[..index] == old(output.Contents());
      FillFrom(q, output, s, index);
    }
  }

  /** The indexed fill of the exposed region. */
  method FillFrom(q: Quoting, output: ByteVec, s: bytes, start: nat)
    requires output.Valid() && output.len == start + |Escape(q, s)|
    modifies output.data
    ensures output.Valid()
    ensures output.Contents() == old(output.Contents())[..start] + Escape(q, s)
  {
    var index := start;
    for i := 0 to |s|
      invariant output.Valid() && output.len == start + |Escape(q, s)|
      invariant index == start + |Escape(q, s[..i])| <= output.len
      invariant output.Contents()[..index] == old(output.Contents())[..start] + Escape(q, s[..i])
    {
      EscapeOneMore(q, s, i);
      EscapeFits(q, s, i + 1);
      ghost var before := output.Contents()[..index];
      index := WriteByteAt(q, output, index, s[i]);
      Assoc(old(output.Contents())[..start], Escape(q, s[..i]), EscapeByte(q, s[i]));
      assert output.Contents()[..index] == before + EscapeByte(q, s[i]);
    }
    assert s[..|s|] == s;
    assert output.Contents()[..index] == output.Contents();
  }

  lemma EscapeFits(q: Quoting, s: bytes, i: nat)
    requires i <= |s|
    ensures |Escape(q, s[..i])| <= |Escape(q, s)|
  {
    EscapeConcat(q, s[..i], s[i..]);
    assert s[..i] + s[i..] == s;
  }
}
