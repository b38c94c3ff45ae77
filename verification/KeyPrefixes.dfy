/**
 * Which encodings are prefixes of others. Only strings and byte strings can be
 * cut short, and only right before an escaped NUL byte.
 */
module KeyPrefixes {
  import opened Bytes
  import opened BigEndian
  import opened Values

  /** t is s, a NUL byte and perhaps more. */
  predicate NulExtends(s: Key, t: Key) { s + [0] <= t }

  /** How one byte of a string is escaped. */
  function EscapeByte(b: Byte): Key { if b == 0 then [0, 0xFF] else [b] }

  lemma {:induction false} EscapeStep(s: Key, x: Key)
    requires s != []
    ensures Escape(s) + x == EscapeByte(s[0]) + (Escape(s[1..]) + x)
  {
    Assoc(EscapeByte(s[0]), Escape(s[1..]), x);
  }

  /** First bytes that differ rule a prefix out, and so do they rule out an extension. */
  lemma {:induction false} HeadsDiffer(s: Key, t: Key)
    requires s != [] && t != [] && s[0] != t[0]
    ensures s != t && !NulExtends(s, t) && !NulExtends(t, s) && !(s <= t)
  {
    assert (s + [0])[0] == s[0] && (t + [0])[0] == t[0];
  }

  lemma {:induction false} HeadsAgree(s: Key, t: Key)
    requires s != [] && t != [] && s[0] == t[0]
    ensures s == t <==> s[1..] == t[1..]
    ensures NulExtends(s, t) <==> NulExtends(s[1..], t[1..])
    ensures s <= t <==> s[1..] <= t[1..]
  {
    var p := [s[0]];
    assert s == p + s[1..] && t == p + t[1..];
    Assoc(p, s[1..], [0]);
    PrefixUnder(p, s[1..] + [0], t[1..]);
    PrefixUnder(p, s[1..], t[1..]);
  }

  /** An escaped string as a prefix of another one and any bytes x. The last case
      is a longer string that x happens to complete. */
  lemma {:induction false} EscapePrefix(s: Key, t: Key, x: Key)
    ensures Escape(s) <= Escape(t) + x <==>
      s == t || NulExtends(s, t) || (NulExtends(t, s) && [0xFF] + Escape(s[|t|+1..]) <= x)
  {
    if s != [] { EscapeStep(s, []); PlusNothing(Escape(s)); PlusNothing(Escape(s[1..])); }
    if t != [] { EscapeStep(t, x); }
    if s == [] || t == [] {
      EscapePrefixEnd(s, t, x);
    } else if s[0] == t[0] {
      HeadsAgree(s, t);
      HeadsAgree(t, s);
      PrefixUnder(EscapeByte(s[0]), Escape(s[1..]), Escape(t[1..]) + x);
      EscapePrefix(s[1..], t[1..], x);
      assert |s| > |t| ==> s[|t|+1..] == s[1..][|t[1..]|+1..];
    } else {
      HeadsDiffer(s, t);
      var a, b := Escape(s), Escape(t) + x;
      assert a[0] == s[0] && b[0] == t[0];
    }
  }

  lemma {:induction false} EscapePrefixEnd(s: Key, t: Key, x: Key)
    requires s == [] || t == []
    ensures Escape(s) <= Escape(t) + x <==>
      s == t || NulExtends(s, t) || (NulExtends(t, s) && [0xFF] + Escape(s[|t|+1..]) <= x)
  {
    if s == [] {
      assert (Escape(t) + x)[0] == if t == [] then 0 else t[0];
      assert Escape(s) == [0];
    } else {
      var rest := Escape(s[1..]);
      assert Escape(t) == [0] && [0, 0xFF] == [0] + [0xFF];
      if s[0] == 0 {
        Assoc([0], [0xFF], rest);
        assert Escape(s) == [0] + ([0xFF] + rest);
        PrefixUnder([0], [0xFF] + rest, x);
        assert NulExtends(t, s);
      } else {
        assert Escape(s)[0] == s[0] && ([0] + x)[0] == 0;
      }
    }
  }

  lemma {:induction false} PlusNothing(a: Key)
    ensures a + [] == a
  {}

  /** An escaped string without its terminator. */
  function Body(s: Key): Key { if s == [] then [] else EscapeByte(s[0]) + Body(s[1..]) }

  lemma {:induction false} EscapeBody(s: Key)
    ensures Escape(s) == Body(s) + [0] && Escape(s)[|Escape(s)|-1] == 0 && Escape(s)[..|Escape(s)|-1] == Body(s)
  {
    if s != [] {
      EscapeBody(s[1..]);
      Assoc(EscapeByte(s[0]), Body(s[1..]), [0]);
    }
  }

  /** Without the terminator, a string meets exactly the strings that begin with it. */
  lemma {:induction false} BodyPrefix(s: Key, t: Key, x: Key)
    ensures Body(s) <= Escape(t) + x <==> s <= t || (NulExtends(t, s) && [0xFF] + Body(s[|t|+1..]) <= x)
  {
    if t != [] { EscapeStep(t, x); }
    if s == [] {
    } else if t == [] {
      var rest := Body(s[1..]);
      assert Escape(t) == [0] && [0, 0xFF] == [0] + [0xFF];
      if s[0] == 0 {
        Assoc([0], [0xFF], rest);
        PrefixUnder([0], [0xFF] + rest, x);
      } else {
        assert Body(s)[0] == s[0] && ([0] + x)[0] == 0;
      }
    } else if s[0] == t[0] {
      HeadsAgree(s, t);
      HeadsAgree(t, s);
      PrefixUnder(EscapeByte(s[0]), Body(s[1..]), Escape(t[1..]) + x);
      BodyPrefix(s[1..], t[1..], x);
      assert |s| > |t| ==> s[|t|+1..] == s[1..][|t[1..]|+1..];
    } else {
      HeadsDiffer(s, t);
      var a, b := Body(s), Escape(t) + x;
      assert a[0] == s[0] && b[0] == t[0];
    }
  }

  // ---- values -------------------------------------------------------------------------

  predicate Text(v: Value) { v.Str? || v.Raw? }

  function TextOf(v: Value): Key
    requires Text(v)
  { if v.Str? then v.s else v.raw }

  /** b is the text a with a NUL byte and perhaps more after it. */
  predicate Extends(a: Value, b: Value) {
    Text(a) && Text(b) && a.Str? == b.Str? && NulExtends(TextOf(a), TextOf(b))
  }

  /** The bytes x after the text b look like the rest of the longer text a. */
  predicate Completes(a: Value, b: Value, x: Key) {
    Extends(b, a) && [0xFF] + Escape(TextOf(a)[|TextOf(b)|+1..]) <= x
  }

  lemma {:induction false} CompletesTail(a: Value, b: Value, x: Key)
    requires Tail(x)
    ensures !Completes(a, b, x)
  {}

  /** Payloads other than texts end where they end, whatever follows. */
  lemma {:induction false} PayloadPrefix(a: Value, b: Value, x: Key)
    requires WellFormed(a) && WellFormed(b) && Rank(a) == Rank(b) && !Text(a)
    ensures Payload(a) <= Payload(b) + x <==> CompareValues(a, b) == 0
  {
    var c, p, q := CompareValues(a, b), Payload(a), Payload(b);
    hide Payload, CompareValues;
    if p <= q + x {
      var z := (q + x)[|p|..];
      PayloadsAgree(a, b, z, x);
      assert p + z == q + x;
      LessIrreflexive(q + x);
    }
    if c == 0 { PayloadsAgree(a, b, [], []); }
  }

  /** An encoding is a prefix of another and any bytes x exactly if the values
      are equal, or the text on the right continues with a NUL byte, or x
      completes a longer text on the left. */
  lemma {:induction false} EncodePrefix(a: Value, b: Value, x: Key)
    requires WellFormed(a) && WellFormed(b)
    ensures Encode(a) <= Encode(b) + x <==> CompareValues(a, b) == 0 || Extends(a, b) || Completes(a, b, x)
  {
    Assoc([Tag(b)], Payload(b), x);
    if Rank(a) != Rank(b) {
      assert Encode(a)[0] == Tag(a) && (Encode(b) + x)[0] == Tag(b);
      RankDecides(a, b);
    } else {
      PrefixUnder([Tag(a)], Payload(a), Payload(b) + x);
      hide Encode;
      if Text(a) { TextPrefix(a, b, x); } else { PayloadPrefix(a, b, x); }
    }
  }

  lemma {:induction false} TextPrefix(a: Value, b: Value, x: Key)
    requires Text(a) && Rank(a) == Rank(b)
    ensures Payload(a) <= Payload(b) + x <==> CompareValues(a, b) == 0 || Extends(a, b) || Completes(a, b, x)
  {
    LessIrreflexive(TextOf(a));
    LessTotal(TextOf(a), TextOf(b));
    EscapePrefix(TextOf(a), TextOf(b), x);
    hide Escape;
  }

  /** Equal texts do not extend each other. */
  lemma {:induction false} ExtendsDiffer(a: Value, b: Value)
    requires Extends(a, b)
    ensures CompareValues(a, b) < 0 && CompareValues(b, a) > 0
  {
    var s, t := TextOf(a), TextOf(b);
    var z := t[|s| + 1..];
    assert t == (s + [0]) + z;
    Assoc(s, [0], z);
    LessPrefix(s, [], [0] + z);
    PlusNothing(s);
    LessAsymmetric(s, t);
  }

  /** Which encodings are prefixes of which. */
  lemma {:induction false} PrefixIff(a: Value, b: Value)
    requires WellFormed(a) && WellFormed(b)
    ensures Encode(a) <= Encode(b) <==> Encode(a) == Encode(b) || Extends(a, b)
  {
    PlusNothing(Encode(b));
    EncodePrefix(a, b, []);
    CompletesTail(a, b, []);
    KeyOrder(a, b);
  }
}
