/** `W_LibObject`, the `lib` of a compiled cffi module: attributes are
    resolved lazily, first from the `dict_w` cache, then from the library's
    own table of globals, then from the included libraries in order, and
    what is found is cached. The C-level collaborators (type realization,
    function pointers, global-variable memory) are opaque values here. */
module CffiLib {
  import opened Wrappers

  /** The `op` of a global's `c_type_op`. */
  datatype GlobalOp =
    | CpythonBltnV | CpythonBltnN | CpythonBltnO
    | GlobalVar | ConstantInt | Enum | Constant
    | OtherOp(code: int)

  /** One entry of `ctx.c_globals`. `size` is `g.c_size`; `typeSize` is the
      size of the realized C type; `address` is `g.c_address` (0 for NULL);
      `structArgs` tells whether the function's C type needs a struct
      wrapper; `funcType` whether a constant's realized type is a function
      type; `payload` stands for the object a constant realizes to. */
  datatype Global = Global(name: string, op: GlobalOp, size: int, typeSize: int,
                           address: nat, structArgs: bool, funcType: bool, payload: int)

  /** What an attribute resolves to: a `W_GlobSupport` for a global
      variable, a function `W_CData` or its `W_StructWrapper`, an integer
      constant, or another constant object (which may be a function cdata). */
  datatype Value =
    | GlobSupport(ctypeSize: int, address: nat)
    | FuncCData(address: nat)
    | StructWrapper(address: nat)
    | IntConst(n: int)
    | ConstObj(payload: int, isFuncCData: bool)

  datatype Error =
    | AttributeNotFound(libname: string, attr: string)  // "has no function, constant or global variable named"
    | CannotWrite(attr: string)                          // "cannot write to function or constant"
    | CannotDelete                                       // "C attribute cannot be deleted"
    | CannotTakeAddress(attr: string)                    // "cannot take the address of the constant"
    | GlobalSizeMismatch(attr: string, expected: int, actual: int)  // FFIError
    | UnknownOp(op: GlobalOp)                            // NotImplementedError "in lib_build_attr"
    | DlopenFetchUnsupported(attr: string)               // cdlopen_fetch's NotImplementedError
    | ImportFailed(libname: string, includeName: string) // ImportError from make_includes_from

  datatype Result<T> = Ok(value: T) | Err(error: Error)

  /** What `address_of_global_var` hands back: the raw address of a global
      variable, or, for a function, the function object itself. */
  datatype Address = RawAddress(addr: nat) | ItselfAsAddress(v: Value)

  /** An entry of `ffi.included_ffis_libs`: the included library, or, for an
      included ffi without a library, its integer constants (what
      `fetch_int_constant` finds). */
  datatype Include = IncludeLib(lib: LibObject) | IncludeFfi(intConstants: map<string, int>)

  /** `search_in_globals`: the index of the global named `attr`, or -1. */
  function SearchInGlobals(globals: seq<Global>, attr: string): (idx: int)
    ensures -1 <= idx < |globals|
    ensures idx >= 0 ==> globals[idx].name == attr && forall j :: 0 <= j < idx ==> globals[j].name != attr
    ensures idx < 0 <==> forall j :: 0 <= j < |globals| ==> globals[j].name != attr
  {
    if globals == [] then -1
    else if globals[0].name == attr then 0
    else
      var rest := SearchInGlobals(globals[1..], attr);
      if rest < 0 then -1 else rest + 1
  }

  /** The object built for a global of the library's own table: a function,
      a global variable (whose declared size must agree with its type's), an
      integer constant, or another constant; any other op is an error. */
  function BuildGlobal(g: Global, attr: string): (r: Result<Value>)
    ensures (r.Err? && r.error.GlobalSizeMismatch?) <==>
            g.op == GlobalVar && g.size != g.typeSize && g.size != 0 && g.typeSize > 0
    ensures (r.Err? && r.error.UnknownOp?) <==> g.op.OtherOp?
    ensures r.Ok? && r.value.GlobSupport? <==>
            g.op == GlobalVar && !(g.size != g.typeSize && g.size != 0 && g.typeSize > 0) && g.address != 0
    ensures r.Ok? && r.value.GlobSupport? ==> r.value.address == g.address
    ensures r.Err? ==> g.op.OtherOp? || g.op == GlobalVar
    ensures r == Err(DlopenFetchUnsupported(attr)) <==>
            g.op == GlobalVar && !(g.size != g.typeSize && g.size != 0 && g.typeSize > 0) && g.address == 0
    ensures g.op == CpythonBltnV || g.op == CpythonBltnN || g.op == CpythonBltnO ==>
            r == Ok(if g.structArgs then StructWrapper(g.address) else FuncCData(g.address))
    ensures g.op == ConstantInt || g.op == Enum ==> r == Ok(IntConst(g.payload))
    ensures g.op == Constant ==> r == Ok(ConstObj(g.payload, g.funcType))
  {
    match g.op
    case CpythonBltnV | CpythonBltnN | CpythonBltnO =>
      Ok(if g.structArgs then StructWrapper(g.address) else FuncCData(g.address))
    case GlobalVar =>
      if g.size != g.typeSize && g.size != 0 && g.typeSize > 0 then
        Err(GlobalSizeMismatch(attr, g.typeSize, g.size))
      else if g.address == 0 then
        Err(DlopenFetchUnsupported(attr))
      else
        Ok(GlobSupport(g.typeSize, g.address))
    case ConstantInt | Enum => Ok(IntConst(g.payload))
    case Constant => Ok(ConstObj(g.payload, g.funcType))
    case OtherOp(_) => Err(UnknownOp(g.op))
  }

  /** The errors building an attribute can raise, wherever in the include
      graph it is built. */
  predicate BuildError(e: Error) {
    e.GlobalSizeMismatch? || e.UnknownOp? || e.DlopenFetchUnsupported?
  }

  /** Every library reachable through the include list `incs`. */
  ghost function ReprOf(incs: seq<Include>): (r: set<LibObject>)
    ensures forall k :: 0 <= k < |incs| && incs[k].IncludeLib? ==> incs[k].lib in r && incs[k].lib.below <= r
  {
    if incs == [] then {}
    else
      (match incs[0]
       case IncludeLib(lib) => {lib} + lib.below
       case IncludeFfi(_) => {})
      + ReprOf(incs[1..])
  }

  /** `address_of_global_var` once the attribute is resolved: a global
      variable gives its address, a function (or a constant that is a
      function) gives itself, any other constant has no address. */
  function AddressOf(v: Value, varname: string): (r: Result<Address>)
    ensures v.GlobSupport? ==> r == Ok(RawAddress(v.address))
    ensures v.FuncCData? || v.StructWrapper? || (v.ConstObj? && v.isFuncCData) ==> r == Ok(ItselfAsAddress(v))
    ensures r.Ok? && r.value.ItselfAsAddress? ==> r.value.v == v
    ensures r.Err? <==> v.IntConst? || (v.ConstObj? && !v.isFuncCData)
    ensures r.Err? ==> r.error == CannotTakeAddress(varname)
  {
    match v
    case GlobSupport(_, address) => Ok(RawAddress(address))
    case FuncCData(_) => Ok(ItselfAsAddress(v))
    case StructWrapper(_) => Ok(ItselfAsAddress(v))
    case ConstObj(_, isFunc) => if isFunc then Ok(ItselfAsAddress(v)) else Err(CannotTakeAddress(varname))
    case IntConst(_) => Err(CannotTakeAddress(varname))
  }

  class LibObject {
    const libname: string
    const globals: seq<Global>
    const includes: seq<Include>
    /** How deep the include graph below this library goes; it only
        serves to show that the search terminates. */
    ghost const depth: nat
    /** The libraries reachable through `includes`. */
    ghost const below: set<LibObject>
    /** `dict_w`: the attributes resolved so far. */
    var dictW: map<string, Value>

    /** Every library reachable from this one sits strictly lower in the
        include graph, so the graph has no cycle. */
    ghost predicate Acyclic()
      decreases depth
    {
      below == ReprOf(includes) &&
      forall l :: l in below ==> l.depth < depth && l.Acyclic()
    }

    /** This library and every library reachable through its includes. */
    ghost function Repr(): (r: set<LibObject>)
      requires Acyclic()
      ensures this in r && this !in below
      ensures forall l :: l in r ==> l.Acyclic() && l.depth <= depth
    {
      {this} + below
    }

    /** The `k`-th included library lies inside `below`, and this library
        is not reachable from it. */
    lemma IncludedInRepr(k: nat)
      requires Acyclic() && k < |includes| && includes[k].IncludeLib?
      ensures includes[k].lib.Repr() <= below
      ensures this !in includes[k].lib.Repr()
    {
    }

    /** `_build_attr` on empty caches: the library's own global if it has
        one, otherwise the first included library or ffi that knows `attr`;
        `Ok(None)` when nothing does. */
    function Lookup(attr: string): (r: Result<Option<Value>>)
      requires Acyclic()
      ensures SearchInGlobals(globals, attr) >= 0 ==> r != Ok(None)
      ensures r.Err? ==> BuildError(r.error)
      decreases depth, 1
    {
      var index := SearchInGlobals(globals, attr);
      if index < 0 then SearchIncludes(attr, 0)
      else
        match BuildGlobal(globals[index], attr)
        case Err(e) => Err(e)
        case Ok(v) => Ok(Some(v))
    }

    /** The search over `includes[k..]`: an error or a found value ends it. */
    function SearchIncludes(attr: string, k: nat): (r: Result<Option<Value>>)
      requires Acyclic() && k <= |includes|
      ensures r.Err? ==> BuildError(r.error)
      decreases depth, 0, |includes| - k
    {
      if k == |includes| then Ok(None)
      else
        var here := IncludeLookup(attr, k);
        if here == Ok(None) then SearchIncludes(attr, k + 1) else here
    }

    /** What the `k`-th include yields for `attr`. */
    function IncludeLookup(attr: string, k: nat): (r: Result<Option<Value>>)
      requires Acyclic() && k < |includes|
      ensures r.Err? ==> BuildError(r.error)
      decreases depth, 0, 0
    {
      match includes[k]
      case IncludeLib(lib) => lib.Lookup(attr)
      case IncludeFfi(consts) => if attr in consts then Ok(Some(IntConst(consts[attr]))) else Ok(None)
    }

    /** `_get_attr`'s outcome: the value, or AttributeError when nothing
        defines `attr`; the errors of building pass through. */
    function Resolve(attr: string): (r: Result<Value>)
      requires Acyclic()
      ensures r == Err(AttributeNotFound(libname, attr)) <==> Lookup(attr) == Ok(None)
      ensures r.Ok? <==> Lookup(attr).Ok? && Lookup(attr).value.Some?
      ensures r.Ok? ==> Lookup(attr) == Ok(Some(r.value))
      ensures Lookup(attr).Err? ==> r == Err(Lookup(attr).error)
    {
      match Lookup(attr)
      case Err(e) => Err(e)
      case Ok(None) => Err(AttributeNotFound(libname, attr))
      case Ok(Some(v)) => Ok(v)
    }

    /** The cache holds only what an uncached search would find. */
    ghost predicate Coherent()
      reads this
      requires Acyclic()
    {
      forall a :: a in dictW ==> Lookup(a) == Ok(Some(dictW[a]))
    }

    ghost predicate AllCoherent()
      reads Repr()
      requires Acyclic()
    {
      forall l :: l in Repr() ==> l.Coherent()
    }

    constructor (libname: string, globals: seq<Global>, includes: seq<Include>, ghost depth: nat)
      requires forall l :: l in ReprOf(includes) ==> l.depth < depth && l.Acyclic()
      ensures this.libname == libname && this.globals == globals && this.includes == includes
      ensures Acyclic() && dictW == map[]
      ensures (forall l :: l in ReprOf(includes) ==> l.Coherent()) ==> AllCoherent()
    {
      this.libname := libname;
      this.globals := globals;
      this.includes := includes;
      this.depth := depth;
      this.below := ReprOf(includes);
      dictW := map[];
    }

    /** `_build_attr(attr)`: resolves `attr` without looking at this
        library's cache (an included library's cache is consulted before
        building there), and caches a found value. Only caches change, and
        only by gaining `attr`. */
    method BuildAttr(attr: string) returns (r: Result<Option<Value>>)
      requires Acyclic() && AllCoherent()
      modifies Repr()
      ensures AllCoherent()
      ensures r == Lookup(attr)
      ensures r.Ok? && r.value.Some? ==> dictW == old(dictW)[attr := r.value.value]
      ensures !(r.Ok? && r.value.Some?) ==> dictW == old(dictW)
      ensures forall l :: l in Repr() ==> old(l.dictW).Keys <= l.dictW.Keys <= old(l.dictW).Keys + {attr}
      decreases depth, 1
    {
      var index := SearchInGlobals(globals, attr);
      var w: Value;
      if index < 0 {
        var outcome := SearchIncludesCached(attr);
        if outcome.Err? {
          return Err(outcome.error);
        }
        if outcome.value.None? {
          return Ok(None);
        }
        w := outcome.value.value;
      } else {
        var built := BuildGlobal(globals[index], attr);
        if built.Err? {
          return Err(built.error);
        }
        w := built.value;
      }
      dictW := dictW[attr := w];
      r := Ok(Some(w));
    }

    /** The for/else loop of `_build_attr` over `included_ffis_libs`: for an
        included library, its cache first and otherwise its own
        `_build_attr`; for an ffi alone, its integer constants. The first
        error or found value stops the loop. */
    method SearchIncludesCached(attr: string) returns (outcome: Result<Option<Value>>)
      requires Acyclic() && AllCoherent()
      modifies below
      ensures AllCoherent()
      ensures outcome == SearchIncludes(attr, 0)
      ensures forall l :: l in Repr() ==> old(l.dictW).Keys <= l.dictW.Keys <= old(l.dictW).Keys + {attr}
      decreases depth, 0
    {
      outcome := Ok(None);
      var k := 0;
      while k < |includes| && outcome == Ok(None)
        invariant 0 <= k <= |includes|
        invariant AllCoherent()
        invariant outcome == Ok(None) ==> SearchIncludes(attr, 0) == SearchIncludes(attr, k)
        invariant outcome != Ok(None) ==> SearchIncludes(attr, 0) == outcome
        invariant forall l :: l in Repr() ==> old(l.dictW).Keys <= l.dictW.Keys <= old(l.dictW).Keys + {attr}
        decreases |includes| - k
      {
        var inc := includes[k];
        if inc.IncludeLib? {
          var lib1 := inc.lib;
          IncludedInRepr(k);
          assert IncludeLookup(attr, k) == lib1.Lookup(attr);
          if attr in lib1.dictW {
            assert lib1.Coherent();
            outcome := Ok(Some(lib1.dictW[attr]));
          } else {
            label BeforeBuild:
            outcome := lib1.BuildAttr(attr);
            forall l | l in Repr() ensures l.Coherent() {
              if l !in lib1.Repr() {
                assert old@BeforeBuild(l.Coherent());
              }
            }
          }
        } else if attr in inc.intConstants {
          outcome := Ok(Some(IntConst(inc.intConstants[attr])));
        }
        k := k + 1;
      }
    }

    /** `_get_attr(attr)`: the cached value when there is one, otherwise
        the built one; AttributeError when nothing defines `attr`. A cache
        hit changes no cache at all; a success leaves `attr` cached. */
    method GetAttr(attr: string) returns (r: Result<Value>)
      requires Acyclic() && AllCoherent()
      modifies Repr()
      ensures AllCoherent()
      ensures r == Resolve(attr)
      ensures attr in old(dictW) ==> forall l :: l in Repr() ==> l.dictW == old(l.dictW)
      ensures r.Ok? ==> attr in dictW && dictW[attr] == r.value
      ensures forall l :: l in Repr() ==> old(l.dictW).Keys <= l.dictW.Keys <= old(l.dictW).Keys + {attr}
    {
      if attr in dictW {
        assert Coherent();
        return Ok(dictW[attr]);
      }
      var built := BuildAttr(attr);
      match built
      case Err(e) => r := Err(e);
      case Ok(None) => r := Err(AttributeNotFound(libname, attr));
      case Ok(Some(v)) => r := Ok(v);
    }

    /** `descr_setattr`: only a global variable can be assigned to; it is
        returned as the target of the write. Functions and constants give
        "cannot write", an unknown name the error of `_get_attr`. */
    method SetAttr(attr: string) returns (r: Result<Value>)
      requires Acyclic() && AllCoherent()
      modifies Repr()
      ensures AllCoherent()
      ensures attr in old(dictW) ==> forall l :: l in Repr() ==> l.dictW == old(l.dictW)
      ensures Resolve(attr).Ok? ==> attr in dictW && dictW[attr] == Resolve(attr).value
      ensures forall l :: l in Repr() ==> old(l.dictW).Keys <= l.dictW.Keys <= old(l.dictW).Keys + {attr}
      ensures r.Ok? <==> Resolve(attr).Ok? && Resolve(attr).value.GlobSupport?
      ensures r.Ok? ==> r == Resolve(attr)
      ensures Resolve(attr).Err? ==> r == Resolve(attr)
      ensures Resolve(attr).Ok? && !Resolve(attr).value.GlobSupport? ==> r == Err(CannotWrite(attr))
    {
      var w := GetAttr(attr);
      if w.Err? {
        return w;
      }
      if w.value.GlobSupport? {
        r := w;
      } else {
        r := Err(CannotWrite(attr));
      }
    }

    /** `descr_delattr`: always fails; with the error of `_get_attr` when
        the name is unknown, and "cannot be deleted" otherwise. */
    method DelAttr(attr: string) returns (e: Error)
      requires Acyclic() && AllCoherent()
      modifies Repr()
      ensures AllCoherent()
      ensures attr in old(dictW) ==> forall l :: l in Repr() ==> l.dictW == old(l.dictW)
      ensures Resolve(attr).Ok? ==> attr in dictW && dictW[attr] == Resolve(attr).value
      ensures forall l :: l in Repr() ==> old(l.dictW).Keys <= l.dictW.Keys <= old(l.dictW).Keys + {attr}
      ensures Resolve(attr).Err? ==> e == Resolve(attr).error
      ensures Resolve(attr).Ok? ==> e == CannotDelete
    {
      var w := GetAttr(attr);
      if w.Err? {
        e := w.error;
      } else {
        e := CannotDelete;
      }
    }

    /** `address_of_global_var(varname)`. */
    method AddressOfGlobalVar(varname: string) returns (r: Result<Address>)
      requires Acyclic() && AllCoherent()
      modifies Repr()
      ensures AllCoherent()
      ensures varname in old(dictW) ==> forall l :: l in Repr() ==> l.dictW == old(l.dictW)
      ensures Resolve(varname).Ok? ==> varname in dictW && dictW[varname] == Resolve(varname).value
      ensures forall l :: l in Repr() ==> old(l.dictW).Keys <= l.dictW.Keys <= old(l.dictW).Keys + {varname}
      ensures Resolve(varname).Err? ==> r == Err(Resolve(varname).error)
      ensures Resolve(varname).Ok? ==> r == AddressOf(Resolve(varname).value, varname)
    {
      var w := GetAttr(varname);
      if w.Err? {
        return Err(w.error);
      }
      r := AddressOf(w.value, varname);
    }

    /** `descr_dir`: the names of the library's own globals, in table
        order; those of included libraries are not listed. */
    function Dir(): (names: seq<string>)
      requires Acyclic()
      ensures |names| == |globals|
      ensures forall i :: 0 <= i < |names| ==> names[i] == globals[i].name
    {
      seq(|globals|, i requires 0 <= i < |globals| => globals[i].name)
    }

    /** `dir(lib)` lists exactly the names of the own globals, and each of
        them resolves to something (a value or a build error). */
    lemma DirListsOwnGlobals(attr: string)
      requires Acyclic()
      ensures attr in Dir() <==> SearchInGlobals(globals, attr) >= 0
      ensures attr in Dir() ==> Lookup(attr) != Ok(None)
    {
      var names := Dir();
      if attr in names {
        var i :| 0 <= i < |names| && names[i] == attr;
        assert globals[i].name == attr;
      }
      var idx := SearchInGlobals(globals, attr);
      if idx >= 0 {
        assert names[idx] == attr;
      }
    }

    /** The own globals win: when one of them has the name, the lookup is
        what building that global gives, a value or an error, and no
        include is consulted. */
    lemma OwnGlobalWins(attr: string)
      requires Acyclic() && SearchInGlobals(globals, attr) >= 0
      ensures BuildGlobal(globals[SearchInGlobals(globals, attr)], attr).Ok? ==>
              Lookup(attr) == Ok(Some(BuildGlobal(globals[SearchInGlobals(globals, attr)], attr).value))
      ensures BuildGlobal(globals[SearchInGlobals(globals, attr)], attr).Err? ==>
              Lookup(attr) == Err(BuildGlobal(globals[SearchInGlobals(globals, attr)], attr).error)
    {
    }

    /** The address of an own C function is the function object itself
        (a struct-argument wrapper when its arguments are structs). */
    lemma OwnFunctionAddressIsItself(attr: string)
      requires Acyclic() && SearchInGlobals(globals, attr) >= 0
      requires globals[SearchInGlobals(globals, attr)].op in {CpythonBltnV, CpythonBltnN, CpythonBltnO}
      ensures var g := globals[SearchInGlobals(globals, attr)];
        Resolve(attr) == Ok(if g.structArgs then StructWrapper(g.address) else FuncCData(g.address))
      ensures Resolve(attr).Ok? && AddressOf(Resolve(attr).value, attr) == Ok(ItselfAsAddress(Resolve(attr).value))
    {
      OwnGlobalWins(attr);
    }

    /** A name that no own global has is resolved by the includes alone. */
    lemma UnlistedNamesComeFromIncludes(attr: string)
      requires Acyclic() && attr !in Dir()
      ensures Lookup(attr) == SearchIncludes(attr, 0)
    {
    }

    /** An attribute is unknown exactly when no own global has its name and
        every include yields nothing for it. */
    lemma {:induction false} NotFoundIff(attr: string)
      requires Acyclic()
      ensures Lookup(attr) == Ok(None) ==> SearchInGlobals(globals, attr) < 0
      ensures Lookup(attr) == Ok(None) ==>
              forall k :: 0 <= k < |includes| ==> IncludeLookup(attr, k) == Ok(None)
      ensures SearchInGlobals(globals, attr) < 0 &&
              (forall k :: 0 <= k < |includes| ==> IncludeLookup(attr, k) == Ok(None)) ==>
              Lookup(attr) == Ok(None)
    {
      if SearchInGlobals(globals, attr) < 0 {
        assert Lookup(attr) == SearchIncludes(attr, 0);
        SearchIncludesNone(attr, 0);
      }
    }

    lemma {:induction false} SearchIncludesNone(attr: string, j: nat)
      requires Acyclic() && j <= |includes|
      ensures SearchIncludes(attr, j) == Ok(None) ==>
              forall k :: j <= k < |includes| ==> IncludeLookup(attr, k) == Ok(None)
      ensures (forall k :: j <= k < |includes| ==> IncludeLookup(attr, k) == Ok(None)) ==>
              SearchIncludes(attr, j) == Ok(None)
      decreases |includes| - j
    {
      if j < |includes| {
        SearchIncludesNone(attr, j + 1);
        var here := IncludeLookup(attr, j);
        if here == Ok(None) {
          assert SearchIncludes(attr, j) == SearchIncludes(attr, j + 1);
          if SearchIncludes(attr, j + 1) == Ok(None) {
            forall k | j <= k < |includes| ensures IncludeLookup(attr, k) == Ok(None) {
              if k > j {
                assert j + 1 <= k < |includes|;
              }
            }
          }
        } else {
          assert SearchIncludes(attr, j) == here;
        }
      }
    }

    /** The includes are searched in order: the first one that yields a
        value or an error decides, whatever the later ones hold. */
    lemma {:induction false} FirstIncludeWins(attr: string, k: nat)
      requires Acyclic() && SearchInGlobals(globals, attr) < 0 && k < |includes|
      requires forall j :: 0 <= j < k ==> IncludeLookup(attr, j) == Ok(None)
      requires IncludeLookup(attr, k) != Ok(None)
      ensures Lookup(attr) == IncludeLookup(attr, k)
    {
      SearchIncludesFrom(attr, 0, k);
    }

    lemma {:induction false} SearchIncludesFrom(attr: string, j: nat, k: nat)
      requires Acyclic() && j <= k < |includes|
      requires forall i :: j <= i < k ==> IncludeLookup(attr, i) == Ok(None)
      requires IncludeLookup(attr, k) != Ok(None)
      ensures SearchIncludes(attr, j) == IncludeLookup(attr, k)
      decreases k - j
    {
      if j < k {
        SearchIncludesFrom(attr, j + 1, k);
      }
    }
  }

  /** The include names of a NULL-terminated `c_includes` array: the
      entries before the first NULL. */
  function IncludeNames(cIncludes: seq<Option<string>>): (names: seq<string>)
    ensures |names| <= |cIncludes|
    ensures forall i :: 0 <= i < |names| ==> cIncludes[i] == Some(names[i])
    ensures |names| < |cIncludes| ==> cIncludes[|names|] == None
    ensures None in cIncludes ==> |names| < |cIncludes|
  {
    if cIncludes == [] || cIncludes[0].None? then []
    else [cIncludes[0].value] + IncludeNames(cIncludes[1..])
  }

  /** The include list for `names`, each resolved through `imported` (what
      importing the module of that name yields as its `lib`); the first
      name that cannot be imported raises ImportError. */
  function IncludesFrom(libname: string, names: seq<string>, imported: map<string, LibObject>)
    : (r: Result<seq<Include>>)
    ensures r.Ok? <==> forall i :: 0 <= i < |names| ==> names[i] in imported
    ensures r.Ok? ==> |r.value| == |names| &&
                      forall i :: 0 <= i < |names| ==> r.value[i] == IncludeLib(imported[names[i]])
  {
    if names == [] then Ok([])
    else
      var n := names[|names| - 1];
      match IncludesFrom(libname, names[..|names| - 1], imported)
      case Err(e) => Err(e)
      case Ok(incs) => if n in imported then Ok(incs + [IncludeLib(imported[n])]) else Err(ImportFailed(libname, n))
  }

  /** A failed import names the first name that cannot be imported. */
  lemma {:induction false} FirstFailureReported(libname: string, names: seq<string>, imported: map<string, LibObject>)
    requires IncludesFrom(libname, names, imported).Err?
    ensures exists i :: 0 <= i < |names| && names[i] !in imported &&
                        IncludesFrom(libname, names, imported).error == ImportFailed(libname, names[i]) &&
                        forall j :: 0 <= j < i ==> names[j] in imported
  {
    var m := |names| - 1;
    var prefix := names[..m];
    if IncludesFrom(libname, prefix, imported).Err? {
      FirstFailureReported(libname, prefix, imported);
      var i :| 0 <= i < |prefix| && prefix[i] !in imported &&
               IncludesFrom(libname, prefix, imported).error == ImportFailed(libname, prefix[i]) &&
               forall j :: 0 <= j < i ==> prefix[j] in imported;
      assert names[i] == prefix[i];
      assert forall j :: 0 <= j < i ==> names[j] == prefix[j];
    } else {
      assert forall j :: 0 <= j < m ==> names[j] == prefix[j] && prefix[j] in imported;
      assert names[m] !in imported;
      assert IncludesFrom(libname, names, imported).error == ImportFailed(libname, names[m]);
    }
  }

  /** Once a prefix of the names fails to import, the whole list fails
      with the same error. */
  lemma {:induction false} FailureSticks(libname: string, names: seq<string>, n: nat, imported: map<string, LibObject>)
    requires n <= |names| && IncludesFrom(libname, names[..n], imported).Err?
    ensures IncludesFrom(libname, names, imported) == IncludesFrom(libname, names[..n], imported)
    decreases |names| - n
  {
    if n < |names| {
      var m := |names| - 1;
      assert names[..m][..n] == names[..n];
      FailureSticks(libname, names[..m], n, imported);
    } else {
      assert names[..n] == names;
    }
  }

  /** `make_includes_from`: walks the array up to its NULL, importing each
      named library in turn. */
  method MakeIncludesFrom(libname: string, cIncludes: seq<Option<string>>, imported: map<string, LibObject>)
    returns (r: Result<seq<Include>>)
    requires None in cIncludes
    ensures r == IncludesFrom(libname, IncludeNames(cIncludes), imported)
  {
    ghost var names := IncludeNames(cIncludes);
    assert names[..0] == [];
    var num := 0;
    var incs: seq<Include> := [];
    while cIncludes[num].Some?
      invariant 0 <= num <= |names|
      invariant IncludesFrom(libname, names[..num], imported) == Ok(incs)
      decreases |names| - num
    {
      var includeName := cIncludes[num].value;
      ghost var next := names[..num + 1];
      assert next[..num] == names[..num] && next[num] == includeName;
      if includeName !in imported {
        FailureSticks(libname, names, num + 1, imported);
        return Err(ImportFailed(libname, includeName));
      }
      incs := incs + [IncludeLib(imported[includeName])];
      num := num + 1;
    }
    assert names[..num] == names;
    r := Ok(incs);
  }
}
