/** `PropertyFlags`: three independent bits saying whether a field may be
    absent, may hold undefined, and may hold null. The flag values fit in a
    byte, so flags are 8-bit vectors. */
module PropertyFlags {

  type Flags = bv8

  const None: Flags := 0
  const Optional: Flags := 1
  const Undefined: Flags := 2
  const Null: Flags := 4

  predicate IsOptional(f: Flags)
  {
    f & Optional != 0
  }

  predicate IsUndefined(f: Flags)
  {
    f & Undefined != 0
  }

  predicate IsNull(f: Flags)
  {
    f & Null != 0
  }

  /** Each test reads one bit: combining flags with `|` sets exactly the
      bits of either side. */
  lemma UnionTests(a: Flags, b: Flags)
    ensures IsOptional(a | b) <==> IsOptional(a) || IsOptional(b)
    ensures IsUndefined(a | b) <==> IsUndefined(a) || IsUndefined(b)
    ensures IsNull(a | b) <==> IsNull(a) || IsNull(b)
  {
  }

  /** The named flags are pairwise independent, and `None` sets nothing. */
  lemma NamedFlags()
    ensures !IsOptional(None) && !IsUndefined(None) && !IsNull(None)
    ensures IsOptional(Optional) && !IsUndefined(Optional) && !IsNull(Optional)
    ensures !IsOptional(Undefined) && IsUndefined(Undefined) && !IsNull(Undefined)
    ensures !IsOptional(Null) && !IsUndefined(Null) && IsNull(Null)
  {
  }
}
