/**
 * The build-time facts the Microsoft Visual C++ configuration header of the
 * pattern-matching library looks at: the compiler's predefined macros
 * (_MSC_VER, _WIN64, _DEBUG) and the definitions a user may have made before
 * including it.
 */
module MsvcTarget {

  datatype Option<T> = None | Some(value: T)

  /** Values of _MSC_VER for the Visual C++ releases the header names. */
  const VisualCpp2005: int := 1400
  const VisualCpp2010: int := 1600
  const VisualCpp2012: int := 1700
  const VisualCpp2013: int := 1800
  /** The header calls this release "Visual C++ 2014" (it shipped as 2015). */
  const VisualCpp2014: int := 1900

  /**
   * One translation unit's view of the configuration macros.
   *   mscVer              _MSC_VER, None when the macro is not defined
   *   win64               whether _WIN64 is defined
   *   debug               whether _DEBUG is defined
   *   userVtblBits        XTL_IRRELEVANT_VTBL_BITS when the user defined it
   *   alignofMacroDefined whether a macro named alignof is already defined
   *   userVla             XTL_SUPPORT_vla when the user defined it
   */
  datatype Target = Target(
    mscVer: Option<int>,
    win64: bool,
    debug: bool,
    userVtblBits: Option<nat>,
    alignofMacroDefined: bool,
    userVla: Option<int>)
  {
    /** The header applies only when the compiler is Visual C++. */
    predicate IsMsvc() {
      mscVer.Some?
    }

    /** The same target compiled by another Visual C++ version. */
    function WithVersion(v: int): Target {
      this.(mscVer := Some(v))
    }
  }
}
