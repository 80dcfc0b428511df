/** The ScVal decoder and encoders of watcher/internal/contract/contract.go. */
module ScVal {
  import opened Wrappers

  /** Int128Parts: a signed high word and an unsigned low word. */
  datatype Int128Parts = Int128Parts(hi: int, lo: nat) {
    predicate Valid() {
      -0x8000_0000_0000_0000 <= hi < 0x8000_0000_0000_0000 && lo < 0x1_0000_0000_0000_0000
    }
  }

  /** An XDR address, with the string form of the kinds that have one. */
  datatype ScAddress = ScAddress(text: Option<string>)

  datatype MapEntry = MapEntry(key: ScVal, val: ScVal)

  /** An XDR union: a type tag with a payload that may be nil. A map or vec is reached through two
      pointers, and has a constructor of its own for each that may be nil: `Nil` for the outer one,
      `Hollow` for the inner one. `Other` are the types the decoder does not handle. */
  datatype ScVal =
    | ScvBytes(bytes: Option<seq<bv8>>)
    | ScvMap(entries: seq<MapEntry>)
    | ScvNilMap
    | ScvHollowMap
    | ScvVec(elems: seq<ScVal>)
    | ScvNilVec
    | ScvHollowVec
    | ScvVoid
    | ScvBool(b: Option<bool>)
    | ScvU32(u32: Option<nat>)
    | ScvI32(i32: Option<int>)
    | ScvU64(u64: Option<nat>)
    | ScvI64(i64: Option<int>)
    | ScvI128(i128: Option<Int128Parts>)
    | ScvSymbol(sym: Option<string>)
    | ScvString(str: Option<string>)
    | ScvAddress(address: Option<ScAddress>)
    | ScvOther

  /** The native Go values the decoder produces. */
  datatype Native =
    | NNil
    | NBytes(bytes: seq<bv8>)
    | NMap(fields: map<string, Native>)
    | NSlice(elems: seq<Native>)
    | NBool(b: bool)
    | NUint32(u32: nat)
    | NInt32(i32: int)
    | NUint64(u64: nat)
    | NInt64(i64: int)
    | NBigInt(big: int)
    | NString(s: string)

  /** An error returned, or a nil pointer dereferenced. */
  datatype DecodeError = Refused(why: string) | Panicked

  function Payload<T>(p: Option<T>): Result<T, DecodeError> {
    if p.Some? then Success(p.value) else Failure(Refused("no value"))
  }

  function BigOf(p: Int128Parts): int {
    p.hi * 0x1_0000_0000_0000_0000 + p.lo
  }

  /** The native value a tree stands for, or the first error met or a panic. */
  function Decode(v: ScVal): Result<Native, DecodeError>
    decreases v, 0
  {
    match v
    case ScvBytes(p) => var b :- Payload(p); Success(NBytes(b))
    case ScvMap(entries) =>
      var fields :- DecodeEntries(entries);
      Success(NMap(fields))
    case ScvNilMap => Failure(Refused("scvMap with no value"))
    case ScvHollowMap => Failure(Panicked)
    case ScvVec(elems) =>
      var decoded :- DecodeElems(elems);
      Success(NSlice(decoded))
    case ScvNilVec => Failure(Refused("scvVec with no value"))
    case ScvHollowVec => Failure(Panicked)
    case ScvVoid => Success(NNil)
    case ScvBool(p) => var b :- Payload(p); Success(NBool(b))
    case ScvU32(p) => var n :- Payload(p); Success(NUint32(n))
    case ScvI32(p) => var n :- Payload(p); Success(NInt32(n))
    case ScvU64(p) => var n :- Payload(p); Success(NUint64(n))
    case ScvI64(p) => var n :- Payload(p); Success(NInt64(n))
    case ScvI128(p) => var n :- Payload(p); Success(NBigInt(BigOf(n)))
    case ScvSymbol(p) => var s :- Payload(p); Success(NString(s))
    case ScvString(p) => var s :- Payload(p); Success(NString(s))
    case ScvAddress(p) =>
      var a :- Payload(p);
      var text :- Payload(a.text);
      Success(NString(text))
    case ScvOther => Failure(Refused("unhandled ScVal type"))
  }

  /** The loop over map entries: a later entry with the same field name wins. */
  function DecodeEntries(entries: seq<MapEntry>): Result<map<string, Native>, DecodeError>
    decreases entries, 1
  {
    if entries == [] then Success(map[])
    else
      var record :- DecodeEntries(entries[..|entries| - 1]);
      var last := entries[|entries| - 1];
      if !last.key.ScvSymbol? || last.key.sym.None? then Failure(Refused("map key is not a symbol"))
      else
        assert last.val < last;
        var val :- Decode(last.val);
        Success(record[last.key.sym.value := val])
  }

  function DecodeElems(elems: seq<ScVal>): Result<seq<Native>, DecodeError>
    decreases elems, 1
  {
    if elems == [] then Success([])
    else
      var decoded :- DecodeElems(elems[..|elems| - 1]);
      var val :- Decode(elems[|elems| - 1]);
      Success(decoded + [val])
  }

  lemma {:induction false} EntriesFail(entries: seq<MapEntry>, k: nat)
    requires k <= |entries| && DecodeEntries(entries[..k]).Failure?
    ensures DecodeEntries(entries) == DecodeEntries(entries[..k])
  {
    if k == |entries| {
      assert entries[..k] == entries;
    } else {
      var init := entries[..|entries| - 1];
      assert init[..k] == entries[..k];
      EntriesFail(init, k);
    }
  }

  lemma {:induction false} ElemsFail(elems: seq<ScVal>, k: nat)
    requires k <= |elems| && DecodeElems(elems[..k]).Failure?
    ensures DecodeElems(elems) == DecodeElems(elems[..k])
  {
    if k == |elems| {
      assert elems[..k] == elems;
    } else {
      var init := elems[..|elems| - 1];
      assert init[..k] == elems[..k];
      ElemsFail(init, k);
    }
  }

  /** decodeScValNative as it runs: maps and slices are built entry by entry, and the first
      error ends the loop. */
  method DecodeScValNative(scv: ScVal) returns (r: Result<Native, DecodeError>)
    ensures r == Decode(scv)
    decreases scv
  {
    match scv {
      case ScvMap(entries) => r := DecodeMap(scv, entries);
      case ScvVec(elems) => r := DecodeVec(scv, elems);
      case _ => r := Decode(scv);
    }
  }

  method DecodeMap(scv: ScVal, entries: seq<MapEntry>) returns (r: Result<Native, DecodeError>)
    requires scv == ScvMap(entries)
    ensures r == Decode(scv)
    decreases scv, 0
  {
    var record: map<string, Native> := map[];
    for i := 0 to |entries|
      invariant DecodeEntries(entries[..i]) == Success(record)
    {
      var entry := entries[i];
      assert entries[..i + 1][..i] == entries[..i];
      if !entry.key.ScvSymbol? || entry.key.sym.None? {
        EntriesFail(entries, i + 1);
        return Failure(Refused("map key is not a symbol"));
      }
      var val := DecodeScValNative(entry.val);
      if val.Failure? {
        EntriesFail(entries, i + 1);
        return Failure(val.error);
      }
      record := record[entry.key.sym.value := val.value];
    }
    assert entries[..|entries|] == entries;
    r := Success(NMap(record));
  }

  method DecodeVec(scv: ScVal, vec: seq<ScVal>) returns (r: Result<Native, DecodeError>)
    requires scv == ScvVec(vec)
    ensures r == Decode(scv)
    decreases scv, 0
  {
    var elems: seq<Native> := [];
    for i := 0 to |vec|
      invariant DecodeElems(vec[..i]) == Success(elems)
    {
      assert vec[..i + 1][..i] == vec[..i];
      var val := DecodeScValNative(vec[i]);
      if val.Failure? {
        ElemsFail(vec, i + 1);
        return Failure(val.error);
      }
      elems := elems + [val.value];
    }
    assert vec[..|vec|] == vec;
    r := Success(NSlice(elems));
  }

  // ------------------------------------------------------- when it succeeds

  /** The values nested directly inside a value. */
  function Children(v: ScVal): seq<ScVal> {
    match v
    case ScvMap(entries) => seq(|entries|, i requires 0 <= i < |entries| => entries[i].val)
    case ScvVec(elems) => elems
    case _ => []
  }

  predicate SymbolKeys(v: ScVal) {
    v.ScvMap? ==>
      forall i :: 0 <= i < |v.entries| ==> v.entries[i].key.ScvSymbol? && v.entries[i].key.sym.Some?
  }

  /** A node on its own: a supported type, with its payload, keyed by symbols if it is a map. */
  predicate NodeOk(v: ScVal) {
    && SymbolKeys(v)
    && match v
       case ScvBytes(p) => p.Some?
       case ScvMap(_) => true
       case ScvNilMap => false
       case ScvHollowMap => false
       case ScvVec(_) => true
       case ScvNilVec => false
       case ScvHollowVec => false
       case ScvVoid => true
       case ScvBool(p) => p.Some?
       case ScvU32(p) => p.Some?
       case ScvI32(p) => p.Some?
       case ScvU64(p) => p.Some?
       case ScvI64(p) => p.Some?
       case ScvI128(p) => p.Some?
       case ScvSymbol(p) => p.Some?
       case ScvString(p) => p.Some?
       case ScvAddress(p) => p.Some? && p.value.text.Some?
       case ScvOther => false
  }

  /** A path of child indices from the root. */
  type Path = seq<nat>

  /** The node at the end of a path, if the path stays inside the tree. */
  function NodeAt(v: ScVal, path: Path): Option<ScVal>
    decreases |path|
  {
    if path == [] then Some(v)
    else if path[0] >= |Children(v)| then None
    else NodeAt(Children(v)[path[0]], path[1..])
  }

  ghost predicate AllNodesOk(v: ScVal) {
    forall path :: NodeAt(v, path).Some? ==> NodeOk(NodeAt(v, path).value)
  }

  /** The decoder succeeds exactly when every node of the tree, however deep, is fine on its
      own. */
  lemma {:induction false} DecodesIffEveryNodeOk(v: ScVal)
    ensures Decode(v).Success? <==> AllNodesOk(v)
    decreases v, 0
  {
    match v {
      case ScvMap(entries) =>
        EntriesDecodeIff(entries);
        forall i | 0 <= i < |entries|
          ensures Decode(entries[i].val).Success? <==> AllNodesOk(Children(v)[i])
        {
          assert Children(v)[i] == entries[i].val;
          DecodesIffEveryNodeOk(entries[i].val);
        }
        ThroughChildren(v);
      case ScvVec(elems) =>
        ElemsDecodeIff(elems);
        forall i | 0 <= i < |elems|
          ensures Decode(elems[i]).Success? <==> AllNodesOk(Children(v)[i])
        {
          DecodesIffEveryNodeOk(elems[i]);
        }
        ThroughChildren(v);
      case _ =>
        Leaf(v);
    }
  }

  lemma ThroughChildren(v: ScVal)
    ensures AllNodesOk(v) <==> NodeOk(v) && forall i :: 0 <= i < |Children(v)| ==> AllNodesOk(Children(v)[i])
  {
    assert NodeAt(v, []) == Some(v);
    if AllNodesOk(v) {
      forall i, path: Path | 0 <= i < |Children(v)| && NodeAt(Children(v)[i], path).Some?
        ensures NodeOk(NodeAt(Children(v)[i], path).value)
      {
        assert ([i] + path)[1..] == path;
        assert NodeAt(v, [i] + path) == NodeAt(Children(v)[i], path);
      }
    } else {
      var path :| NodeAt(v, path).Some? && !NodeOk(NodeAt(v, path).value);
      if path != [] {
        assert NodeAt(v, path) == NodeAt(Children(v)[path[0]], path[1..]);
        assert !AllNodesOk(Children(v)[path[0]]);
      }
    }
  }

  lemma Leaf(v: ScVal)
    requires Children(v) == []
    ensures AllNodesOk(v) <==> NodeOk(v)
  {
    assert NodeAt(v, []) == Some(v);
  }

  predicate Hollow(v: ScVal) {
    v.ScvHollowMap? || v.ScvHollowVec?
  }

  /** Every failure comes from a node that is not fine, and the decoder panics exactly at hollow
      ones: a tree without any is decoded or refused, never a panic. */
  lemma {:induction false} FailureHasCause(v: ScVal) returns (path: Path)
    requires Decode(v).Failure?
    ensures NodeAt(v, path).Some? && !NodeOk(NodeAt(v, path).value)
    ensures Decode(v).error.Panicked? <==> Hollow(NodeAt(v, path).value)
    decreases v, 0
  {
    path := [];
    match v {
      case ScvMap(entries) =>
        var i := EntriesCause(entries);
        if i.Some? {
          assert entries[i.value].val < entries[i.value];
          var rest := FailureHasCause(entries[i.value].val);
          path := [i.value] + rest;
          assert path[1..] == rest;
        }
      case ScvVec(elems) =>
        var i := ElemsCause(elems);
        var rest := FailureHasCause(elems[i]);
        path := [i] + rest;
        assert path[1..] == rest;
      case _ =>
    }
  }

  /** The entry whose value could not be decoded, or None when a key is at fault. */
  lemma {:induction false} EntriesCause(entries: seq<MapEntry>) returns (i: Option<nat>)
    requires DecodeEntries(entries).Failure?
    ensures match i
            case Some(k) => k < |entries| && Decode(entries[k].val) == Failure(DecodeEntries(entries).error)
            case None => DecodeEntries(entries).error.Refused? && !SymbolKeys(ScvMap(entries))
  {
    var init, last := entries[..|entries| - 1], entries[|entries| - 1];
    if DecodeEntries(init).Failure? {
      i := EntriesCause(init);
      assert forall k :: 0 <= k < |init| ==> init[k] == entries[k];
    } else if !last.key.ScvSymbol? || last.key.sym.None? {
      i := None;
    } else {
      i := Some(|init|);
    }
  }

  lemma {:induction false} ElemsCause(elems: seq<ScVal>) returns (i: nat)
    requires DecodeElems(elems).Failure?
    ensures i < |elems| && Decode(elems[i]) == Failure(DecodeElems(elems).error)
  {
    var init := elems[..|elems| - 1];
    if DecodeElems(init).Failure? {
      i := ElemsCause(init);
    } else {
      i := |init|;
    }
  }

  lemma {:induction false} EntriesDecodeIff(entries: seq<MapEntry>)
    ensures DecodeEntries(entries).Success? <==>
            forall i :: 0 <= i < |entries| ==>
              entries[i].key.ScvSymbol? && entries[i].key.sym.Some? && Decode(entries[i].val).Success?
  {
    if entries != [] {
      var init := entries[..|entries| - 1];
      EntriesDecodeIff(init);
      assert forall i :: 0 <= i < |init| ==> init[i] == entries[i];
    }
  }

  lemma {:induction false} ElemsDecodeIff(elems: seq<ScVal>)
    ensures DecodeElems(elems).Success? <==> forall i :: 0 <= i < |elems| ==> Decode(elems[i]).Success?
  {
    if elems != [] {
      var init := elems[..|elems| - 1];
      ElemsDecodeIff(init);
      assert forall i :: 0 <= i < |init| ==> init[i] == elems[i];
    }
  }

  /** What a decoded vec and a decoded map hold: element by element, and field by field with the
      last entry of a name deciding. */
  lemma {:induction false} DecodedElems(elems: seq<ScVal>)
    requires DecodeElems(elems).Success?
    ensures var out := DecodeElems(elems).value;
            |out| == |elems| && forall i :: 0 <= i < |elems| ==> Decode(elems[i]) == Success(out[i])
  {
    if elems != [] {
      DecodedElems(elems[..|elems| - 1]);
    }
  }

  /** The scalar types: the value carried, as the Go type of its kind. */
  lemma DecodedScalars(b: bool, u32: nat, i32: int, u64: nat, i64: int, n: int, text: string, bytes: seq<bv8>)
    requires -0x8000_0000_0000_0000_0000_0000_0000_0000 <= n < 0x8000_0000_0000_0000_0000_0000_0000_0000
    ensures Decode(ScvVoid) == Success(NNil) && Decode(ScvBool(Some(b))) == Success(NBool(b))
    ensures Decode(ScvU32(Some(u32))) == Success(NUint32(u32)) && Decode(ScvI32(Some(i32))) == Success(NInt32(i32))
    ensures Decode(ScvU64(Some(u64))) == Success(NUint64(u64)) && Decode(ScvI64(Some(i64))) == Success(NInt64(i64))
    ensures var parts := Int128Parts(n / 0x1_0000_0000_0000_0000, n % 0x1_0000_0000_0000_0000);
            Decode(ScvI128(Some(parts))) == Success(NBigInt(n))
    ensures Decode(ScvBytes(Some(bytes))) == Success(NBytes(bytes))
    ensures Decode(ScvSymbol(Some(text))) == Decode(ScvString(Some(text))) == Success(NString(text))
    ensures Decode(ScvAddress(Some(ScAddress(Some(text))))) == Success(NString(text))
  {
    Int128Bijection(n);
  }

  ghost predicate LastNamed(entries: seq<MapEntry>, name: string, i: nat) {
    && i < |entries| && entries[i].key == ScvSymbol(Some(name))
    && forall j :: i < j < |entries| ==> entries[j].key != ScvSymbol(Some(name))
  }

  lemma {:induction false} DecodedFields(entries: seq<MapEntry>, name: string)
    requires DecodeEntries(entries).Success?
    ensures var fields := DecodeEntries(entries).value;
            && (name in fields <==> exists i: nat :: LastNamed(entries, name, i))
            && (forall i: nat :: LastNamed(entries, name, i) ==>
                  name in fields && Decode(entries[i].val) == Success(fields[name]))
  {
    if entries != [] {
      var init, last := entries[..|entries| - 1], entries[|entries| - 1];
      DecodedFields(init, name);
      assert forall i :: 0 <= i < |init| ==> init[i] == entries[i];
      if last.key == ScvSymbol(Some(name)) {
        assert LastNamed(entries, name, |init|);
      } else {
        forall i: nat
          ensures LastNamed(entries, name, i) <==> LastNamed(init, name, i)
        {
        }
      }
    }
  }

  // -------------------------------------------------------------- the encoders

  datatype CheckStatus = StatusUp | StatusDown

  function SymbolOf(status: CheckStatus): string {
    match status
    case StatusUp => "Up"
    case StatusDown => "Down"
  }

  function EncodeU64(v: nat): ScVal {
    ScvU64(Some(v))
  }

  function EncodeBytes32(b: seq<bv8>): ScVal {
    ScvBytes(Some(b))
  }

  function EncodeStatus(status: CheckStatus): ScVal {
    ScvVec([ScvSymbol(Some(SymbolOf(status)))])
  }

  /** The decoder inverts the encoders, and different statuses encode differently. */
  lemma DecodeInvertsEncoders(v: nat, b: seq<bv8>, status: CheckStatus)
    ensures Decode(EncodeU64(v)) == Success(NUint64(v))
    ensures Decode(EncodeBytes32(b)) == Success(NBytes(b))
    ensures Decode(EncodeStatus(status)) == Success(NSlice([NString(SymbolOf(status))]))
  {
    var elems := [ScvSymbol(Some(SymbolOf(status)))];
    assert elems[..0] == [] && elems[0] == ScvSymbol(Some(SymbolOf(status)));
    assert DecodeElems(elems[..0]) == Success([]);
    assert Decode(elems[0]) == Success(NString(SymbolOf(status)));
    assert [] + [NString(SymbolOf(status))] == [NString(SymbolOf(status))];
  }

  /** The high/low rule is a bijection between valid parts and the signed 128-bit integers. */
  lemma Int128Bijection(n: int)
    requires -0x8000_0000_0000_0000_0000_0000_0000_0000 <= n < 0x8000_0000_0000_0000_0000_0000_0000_0000
    ensures var p := Int128Parts(n / 0x1_0000_0000_0000_0000, n % 0x1_0000_0000_0000_0000);
            && p.Valid() && BigOf(p) == n
            && forall p': Int128Parts :: p'.Valid() && BigOf(p') == n ==> p' == p
  {
  }

  lemma Int128Range(p: Int128Parts)
    requires p.Valid()
    ensures -0x8000_0000_0000_0000_0000_0000_0000_0000 <= BigOf(p) < 0x8000_0000_0000_0000_0000_0000_0000_0000
  {
  }
}
