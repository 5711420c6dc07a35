/**
 * The capability profile the Microsoft Visual C++ configuration header
 * resolves: which XTL_SUPPORT_* facts hold for the compiler version, which
 * fallback spellings it installs for older compilers, the keyword-macro quirk
 * of Visual C++ 2012 and the number of irrelevant vtbl-pointer bits.
 */
module Capabilities {
  import opened MsvcTarget
  import VtblBits

  /** The language facilities the header reports as XTL_SUPPORT_<name>. */
  datatype Feature =
    | Alignof       // alignof(T)
    | Alloca        // alloca
    | Ddf           // defaulted and deleted functions
    | Func          // __func__
    | Noexcept      // noexcept
    | Nullptr       // nullptr
    | Rvalref       // rvalue references
    | StaticAssert  // static_assert

  /** The first Visual C++ release that has each feature, as the header's comments name it. */
  function FirstRelease(f: Feature): int {
    match f
    case Alloca => VisualCpp2005
    case Nullptr | Rvalref | StaticAssert => VisualCpp2010
    case Alignof => VisualCpp2012
    case Ddf => VisualCpp2013
    case Func | Noexcept => VisualCpp2014
  }

  /**
   * The macros the header leaves defined, for a user who has not defined
   * XTL_SUPPORT_<name> (other than vla) or _ALLOW_KEYWORD_MACROS beforehand.
   * allowKeywordMacros records only the header's own definition.
   *   support*              XTL_SUPPORT_<name> is defined as 1
   *   alignofRewritten      alignof(T) is defined as __alignof(T)
   *   staticAssertRewritten static_assert(cond,text) is defined as _STATIC_ASSERT(cond)
   *   supportVla            the value of XTL_SUPPORT_vla
   *   irrelevantVtblBits    the value of XTL_IRRELEVANT_VTBL_BITS
   *   allowKeywordMacros    _ALLOW_KEYWORD_MACROS is defined as 1
   */
  datatype Profile = Profile(
    supportAlignof: bool,
    supportAlloca: bool,
    supportDdf: bool,
    supportFunc: bool,
    supportNoexcept: bool,
    supportNullptr: bool,
    supportRvalref: bool,
    supportStaticAssert: bool,
    alignofRewritten: bool,
    staticAssertRewritten: bool,
    supportVla: int,
    irrelevantVtblBits: nat,
    allowKeywordMacros: bool)
  {
    /** Whether XTL_SUPPORT_<f> is defined. */
    predicate Supports(f: Feature) {
      match f
      case Alignof => supportAlignof
      case Alloca => supportAlloca
      case Ddf => supportDdf
      case Func => supportFunc
      case Noexcept => supportNoexcept
      case Nullptr => supportNullptr
      case Rvalref => supportRvalref
      case StaticAssert => supportStaticAssert
    }
  }

  /** The header stops the build with #error when the compiler is not Visual C++. */
  datatype ConfigError = NotMsvc

  datatype Result<T> = Ok(value: T) | Err(error: ConfigError)

  /** The profile the header resolves for a target, or the build error it raises. */
  function Resolve(t: Target): (r: Result<Profile>)
    ensures r.Err? <==> !t.IsMsvc()
    ensures r.Ok? ==> forall f :: r.value.Supports(f) <==> t.mscVer.value >= FirstRelease(f)
    ensures r.Ok? ==> (r.value.alignofRewritten <==> !r.value.supportAlignof && !t.alignofMacroDefined)
    ensures r.Ok? ==> (r.value.staticAssertRewritten <==> !r.value.supportStaticAssert)
    ensures r.Ok? ==> r.value.supportVla == (if t.userVla.Some? then t.userVla.value else 0)
    ensures r.Ok? ==> r.value.irrelevantVtblBits == VtblBits.ResolveVtblBits(t)
    ensures r.Ok? ==> (r.value.allowKeywordMacros <==> t.mscVer.value == VisualCpp2012)
  {
    match t.mscVer
    case None => Err(NotMsvc)
    case Some(v) =>
      Ok(Profile(
        supportAlignof := v >= 1700,
        supportAlloca := v >= 1400,
        supportDdf := v >= 1800,
        supportFunc := v >= 1900,
        supportNoexcept := v >= 1900,
        supportNullptr := v >= 1600,
        supportRvalref := v >= 1600,
        supportStaticAssert := v >= 1600,
        alignofRewritten := v < 1700 && !t.alignofMacroDefined,
        staticAssertRewritten := v < 1600,
        supportVla := match t.userVla case Some(u) => u case None => 0,
        irrelevantVtblBits := VtblBits.ResolveVtblBits(t),
        allowKeywordMacros := v == 1700))
  }

  /** A feature supported by one Visual C++ version stays supported by every later one. */
  lemma SupportIsMonotone(t: Target, v: int, w: int, f: Feature)
    requires v <= w
    requires Resolve(t.WithVersion(v)).value.Supports(f)
    ensures Resolve(t.WithVersion(w)).value.Supports(f)
  {
  }

  /** Only the compiler version decides the XTL_SUPPORT_* facts. */
  lemma SupportDependsOnlyOnVersion(t: Target, u: Target, f: Feature)
    requires t.IsMsvc() && u.IsMsvc() && t.mscVer == u.mscVer
    ensures Resolve(t).value.Supports(f) == Resolve(u).value.Supports(f)
  {
  }

  /**
   * After the header, alignof(T) can always be written: the compiler has it,
   * the header spelled it as the intrinsic, or the user had defined it.
   */
  lemma AlignofAlwaysAvailable(t: Target)
    requires t.IsMsvc()
    ensures var p := Resolve(t).value;
      p.supportAlignof || p.alignofRewritten || t.alignofMacroDefined
  {
  }

  /** static_assert is either native or rewritten, never both and never neither. */
  lemma StaticAssertExactlyOnce(t: Target)
    requires t.IsMsvc()
    ensures var p := Resolve(t).value;
      p.supportStaticAssert != p.staticAssertRewritten
  {
  }

  /**
   * The header sets _ALLOW_KEYWORD_MACROS only for the release that checks keyword
   * redefinition but has no noexcept of its own.
   */
  lemma KeywordMacrosOnlyWithoutNoexcept(t: Target)
    requires t.IsMsvc()
    requires Resolve(t).value.allowKeywordMacros
    ensures !Resolve(t).value.Supports(Noexcept)
    ensures Resolve(t).value.Supports(Alignof)
  {
  }

  /** The build kind and the user's vtbl-bit value affect nothing but XTL_IRRELEVANT_VTBL_BITS. */
  lemma BuildKindOnlyAffectsVtblBits(t: Target, u: Target)
    requires t.IsMsvc() && t.mscVer == u.mscVer
    requires t.alignofMacroDefined == u.alignofMacroDefined && t.userVla == u.userVla
    ensures Resolve(t).value.(irrelevantVtblBits := 0) == Resolve(u).value.(irrelevantVtblBits := 0)
  {
  }
}
