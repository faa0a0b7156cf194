/**
 The checkpoint file as Verilator's save/restore streams see it: a sequence of
 typed fields. The byte encoding of each field belongs to Verilator and is not
 modelled; one token stands for one `<<` of a scalar, a string, or the whole
 generated hardware model.
 */
module Stream {
  import opened Words
  import opened Wrappers

  /** The generated hardware model's saved state, kept uninterpreted. */
  datatype ModelImage = ModelImage(bytes: seq<bv8>)

  datatype Token =
    | Word32(w32: u32)            // a `vluint32_t` / `uint32_t`
    | Word64(w64: u64)            // a `uint64_t`
    | Text(text: string)          // a `std::string`
    | Model(image: ModelImage)    // `os << *topp`, the generated model's own fields

  function PutU32(x: u32): Token { Word32(x) }
  function PutU64(x: u64): Token { Word64(x) }
  function PutText(x: string): Token { Text(x) }

  /** Reading a 32-bit word: any other kind of token is refused. */
  function GetU32(t: Token): (r: Option<u32>)
    ensures r.Some? <==> t.Word32?
  {
    if t.Word32? then Some(t.w32) else None
  }

  function GetU64(t: Token): (r: Option<u64>)
    ensures r.Some? <==> t.Word64?
  {
    if t.Word64? then Some(t.w64) else None
  }

  function GetText(t: Token): (r: Option<string>)
    ensures r.Some? <==> t.Text?
  {
    if t.Text? then Some(t.text) else None
  }

  /** Each scalar reader undoes its writer. */
  lemma ScalarRoundTrip(a: u32, b: u64, c: string)
    ensures GetU32(PutU32(a)) == Some(a)
    ensures GetU64(PutU64(b)) == Some(b)
    ensures GetText(PutText(c)) == Some(c)
  {
  }

  /**
   `os >> x` for a scalar: takes the first token of the stream, which must be
   of the field's kind, and leaves the rest.
   */
  function ReadU64(ts: seq<Token>): (r: Result<(u64, seq<Token>)>)
    ensures ts == [] ==> r == Failure(Truncated)
    ensures r.Success? <==> ts != [] && ts[0].Word64?
    ensures r.Success? ==> [PutU64(r.value.0)] + r.value.1 == ts
  {
    if ts == [] then Failure(Truncated)
    else if !ts[0].Word64? then Failure(UnexpectedToken)
    else Success((ts[0].w64, ts[1..]))
  }

  /** `os >> *topp`: the model reads back its own block. */
  function ReadModel(ts: seq<Token>): (r: Result<(ModelImage, seq<Token>)>)
    ensures ts == [] ==> r == Failure(Truncated)
    ensures r.Success? <==> ts != [] && ts[0].Model?
    ensures r.Success? ==> [Model(r.value.0)] + r.value.1 == ts
  {
    if ts == [] then Failure(Truncated)
    else if !ts[0].Model? then Failure(UnexpectedToken)
    else Success((ts[0].image, ts[1..]))
  }
}
