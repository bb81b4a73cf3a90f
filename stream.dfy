/** The binary streams the game objects are read from and written to. The
    stream classes themselves are not part of this model: a stream is a
    sequence of tagged scalars, read front to back. An `Action` is read and
    written by code outside this model, so it travels as one opaque token. */
module Streams {
  import opened Base

  /** The game's action record; its own encoding is not modelled. */
  type Action(==, !new)

  datatype Token =
    | IntToken(i: int)
    | DoubleToken(d: real)
    | BoolToken(b: bool)
    | ActionToken(a: Action)

  /** A value read from position `p`, with the position just after it. */
  datatype Decoded<T> = Decoded(value: T, next: nat)

  function ReadIntAt(s: seq<Token>, p: nat): (r: Option<Decoded<int>>)
    ensures r.Some? <==> p < |s| && s[p].IntToken?
    ensures r.Some? ==> r.value == Decoded(s[p].i, p + 1)
  {
    if p < |s| && s[p].IntToken? then Some(Decoded(s[p].i, p + 1)) else None
  }

  function ReadDoubleAt(s: seq<Token>, p: nat): (r: Option<Decoded<real>>)
    ensures r.Some? <==> p < |s| && s[p].DoubleToken?
    ensures r.Some? ==> r.value == Decoded(s[p].d, p + 1)
  {
    if p < |s| && s[p].DoubleToken? then Some(Decoded(s[p].d, p + 1)) else None
  }

  function ReadBoolAt(s: seq<Token>, p: nat): (r: Option<Decoded<bool>>)
    ensures r.Some? <==> p < |s| && s[p].BoolToken?
    ensures r.Some? ==> r.value == Decoded(s[p].b, p + 1)
  {
    if p < |s| && s[p].BoolToken? then Some(Decoded(s[p].b, p + 1)) else None
  }

  function ReadActionAt(s: seq<Token>, p: nat): (r: Option<Decoded<Action>>)
    ensures r.Some? <==> p < |s| && s[p].ActionToken?
    ensures r.Some? ==> r.value == Decoded(s[p].a, p + 1)
  {
    if p < |s| && s[p].ActionToken? then Some(Decoded(s[p].a, p + 1)) else None
  }

  /** `enc` sits in `s` at position `p`. */
  predicate At(s: seq<Token>, p: nat, enc: seq<Token>) {
    p + |enc| <= |s| && s[p..p + |enc|] == enc
  }

  /** The part of an encoding after its first `k` tokens sits right after them. */
  lemma AtSuffix(s: seq<Token>, p: nat, enc: seq<Token>, k: nat)
    requires At(s, p, enc) && k <= |enc|
    ensures At(s, p + k, enc[k..])
    ensures k < |enc| ==> s[p + k] == enc[k]
  {
    assert s[p + k..p + |enc|] == s[p..p + |enc|][k..];
    if k < |enc| {
      assert s[p + k] == s[p..p + |enc|][k];
    }
  }

  /** The two halves of a concatenated encoding sit one after the other. */
  lemma AtSplit(s: seq<Token>, p: nat, a: seq<Token>, b: seq<Token>)
    requires At(s, p, a + b)
    ensures At(s, p, a) && At(s, p + |a|, b)
  {
    assert s[p..p + |a|] == s[p..p + |a + b|][..|a|];
    assert s[p + |a|..p + |a| + |b|] == s[p..p + |a + b|][|a|..];
  }

  /** How a method's result agrees with a decoding function: failure when the
      function fails, otherwise the same value with the stream moved past it. */
  predicate Agrees<T(==)>(r: Option<T>, d: Option<Decoded<T>>, pos: nat) {
    if d.None? then r.None? else r == Some(d.value.value) && pos == d.value.next
  }

  class OutputStream {
    var written: seq<Token>

    constructor ()
      ensures written == []
    {
      written := [];
    }

    method WriteInt(n: int)
      modifies this
      ensures written == old(written) + [IntToken(n)]
    {
      written := written + [IntToken(n)];
    }

    method WriteDouble(x: real)
      modifies this
      ensures written == old(written) + [DoubleToken(x)]
    {
      written := written + [DoubleToken(x)];
    }

    method WriteBool(b: bool)
      modifies this
      ensures written == old(written) + [BoolToken(b)]
    {
      written := written + [BoolToken(b)];
    }

    method WriteAction(a: Action)
      modifies this
      ensures written == old(written) + [ActionToken(a)]
    {
      written := written + [ActionToken(a)];
    }
  }

  class InputStream {
    const tokens: seq<Token>
    var pos: nat

    constructor (ts: seq<Token>)
      ensures tokens == ts && pos == 0
    {
      tokens, pos := ts, 0;
    }

    method ReadInt() returns (r: Option<int>)
      modifies this
      ensures Agrees(r, ReadIntAt(tokens, old(pos)), pos)
      ensures r.None? ==> pos == old(pos)
    {
      if pos < |tokens| && tokens[pos].IntToken? {
        r := Some(tokens[pos].i);
        pos := pos + 1;
      } else {
        r := None;
      }
    }

    method ReadDouble() returns (r: Option<real>)
      modifies this
      ensures Agrees(r, ReadDoubleAt(tokens, old(pos)), pos)
      ensures r.None? ==> pos == old(pos)
    {
      if pos < |tokens| && tokens[pos].DoubleToken? {
        r := Some(tokens[pos].d);
        pos := pos + 1;
      } else {
        r := None;
      }
    }

    method ReadBool() returns (r: Option<bool>)
      modifies this
      ensures Agrees(r, ReadBoolAt(tokens, old(pos)), pos)
      ensures r.None? ==> pos == old(pos)
    {
      if pos < |tokens| && tokens[pos].BoolToken? {
        r := Some(tokens[pos].b);
        pos := pos + 1;
      } else {
        r := None;
      }
    }

    method ReadAction() returns (r: Option<Action>)
      modifies this
      ensures Agrees(r, ReadActionAt(tokens, old(pos)), pos)
      ensures r.None? ==> pos == old(pos)
    {
      if pos < |tokens| && tokens[pos].ActionToken? {
        r := Some(tokens[pos].a);
        pos := pos + 1;
      } else {
        r := None;
      }
    }
  }
}
