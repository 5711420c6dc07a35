# Mach7 MSVC configuration: vtbl-bit table and capability profile

Mach7 is a pattern-matching library for C++ that dispatches on the dynamic type of
an object by hashing the object's vtbl-pointer. Its header `code/comp.msvc.hpp`
configures the library for Microsoft Visual C++. Among many textual macros, it
contains two decision procedures, and this project models them as pure Dafny
functions over a target description:

- **The irrelevant vtbl-bit count.** `XTL_IRRELEVANT_VTBL_BITS` is the number of
  lowest bits of a vtbl-pointer that carry no information. A user definition wins.
  Otherwise the value comes from a 2×2 table indexed by `_WIN64` and `_DEBUG`, and
  each entry encodes the vtbl alignment its comment records. The module `VtblBits`
  models the table. It also models what dropping that many bits from a pointer means
  (`p >> b`, division by 2^b). It proves that the drop is lossless and injective on
  aligned pointers, that a smaller count keeps keys distinct, and that a larger count
  makes distinct aligned pointers collide.
- **The capability profile.** The `XTL_SUPPORT_*` facts are version thresholds on
  `_MSC_VER`. The fallback spellings of `alignof` and `static_assert` are installed
  for older compilers. `XTL_SUPPORT_vla` defaults to 0. `_ALLOW_KEYWORD_MACROS` is
  set for Visual C++ 2012. The module `Capabilities` resolves all of these from a
  `MsvcTarget.Target` into a `Profile`, and resolution fails with `NotMsvc` when
  `_MSC_VER` is undefined, matching the header's `#error`.

Files: `msvc_target.dfy` (the input macros and the release numbers),
`vtbl_bits.dfy`, `capabilities.dfy`.

Two consequences of the header's logic:

- The header fails only when the compiler is not Visual C++. There is no failure for
  an "unknown target". Every target without `_WIN64` gets the x86 row of the table.
- Nothing in the header rejects a null pointer. Key derivation is not in the header.

## Model

| member | source | states |
|---|---|---|
| `VtblBits.DropIrrelevantBits` | code/comp.msvc.hpp:121 | dropping `b` irrelevant lowest bits gives the unique `k` with `k·2^b ≤ p < (k+1)·2^b`, i.e. `p >> b` |
| `VtblBits.RestoreBits` | code/comp.msvc.hpp:121 | putting `b` zero bits back below `k` gives a pointer aligned to 2^b whose dropped form is `k` again |
| `VtblBits.DropIsLossless` | code/comp.msvc.hpp:121 | on a pointer whose `b` lowest bits are zero, dropping them and restoring them gives the pointer back |
| `VtblBits.DropIsInjective` | code/comp.msvc.hpp:121 | two distinct pointers aligned to 2^b keep distinct keys after dropping `b` bits |
| `VtblBits.AlignedToFewerBits` | code/comp.msvc.hpp:131-143 | a pointer aligned to 2^b bytes is aligned to 2^c bytes for every `c ≤ b` |
| `VtblBits.FewerBitsStayInjective` | code/comp.msvc.hpp:124-127 | a bit count below the true alignment still keeps distinct aligned pointers apart; it only makes keys sparser |
| `VtblBits.MoreBitsCollide` | code/comp.msvc.hpp:124-127 | for `p` aligned to 2^c with `b < c`, a bit count `c` above the true alignment 2^b makes the distinct pointers `p` and `p + 2^b`, both aligned to 2^b, share a key |
| `VtblBits.DropShrinksRange` | code/comp.msvc.hpp:122-123 | dropping `b` bits from a `w`-bit pointer leaves a key below 2^(w−b); the model reads this narrower key range as what the optimisation the comment mentions buys |
| `VtblBits.DefaultVtblBits` | code/comp.msvc.hpp:129-145 | for every build kind, 2^default equals the vtbl alignment its comment records (x64 Debug 8, x64 Release 16, x86 Debug 4, x86 Release 8), so the default lies in [2,4] |
| `VtblBits.DefaultVtblBitsIsUnique` | code/comp.msvc.hpp:129-145 | the table entry is the only bit count whose power of two is the recorded alignment (3, 4, 2, 3) |
| `VtblBits.ResolveVtblBits` | code/comp.msvc.hpp:120-146 | a user-defined `XTL_IRRELEVANT_VTBL_BITS` is returned unchanged; otherwise the result is the table entry for `_WIN64`/`_DEBUG`, with 2^result the recorded alignment |
| `VtblBits.DefaultDropIsLossless` | code/comp.msvc.hpp:129-145 | without an override, every vtbl-pointer aligned as recorded for the build is recovered exactly from its key |
| `Capabilities.Resolve` | code/comp.msvc.hpp:49-111 | fails exactly when `_MSC_VER` is undefined; each `XTL_SUPPORT_*` flag holds exactly when `_MSC_VER` reaches its first release (alloca 1400; nullptr, rvalref, static_assert 1600; alignof 1700; ddf 1800; func, noexcept 1900); `alignof` is rewritten exactly when it is unsupported and not already a macro; `static_assert` is rewritten exactly when unsupported; `XTL_SUPPORT_vla` keeps a user value or becomes 0; the vtbl-bit count is `ResolveVtblBits`; `_ALLOW_KEYWORD_MACROS` is set exactly at 1700 |
| `Capabilities.SupportIsMonotone` | code/comp.msvc.hpp:55-105 | a feature supported at version `v` is supported at every version `w ≥ v` |
| `Capabilities.SupportDependsOnlyOnVersion` | code/comp.msvc.hpp:55-105 | two MSVC targets with the same `_MSC_VER` agree on every `XTL_SUPPORT_*` fact, whatever their build kind and modelled user definitions (vtbl bits, vla, alignof macro) |
| `Capabilities.AlignofAlwaysAvailable` | code/comp.msvc.hpp:55-59 | after the header, `alignof` is native, rewritten to `__alignof`, or a macro the user already had |
| `Capabilities.StaticAssertExactlyOnce` | code/comp.msvc.hpp:101-105 | `static_assert` is either native or rewritten to `_STATIC_ASSERT`, never both and never neither |
| `Capabilities.KeywordMacrosOnlyWithoutNoexcept` | code/comp.msvc.hpp:210-213 | when the header sets `_ALLOW_KEYWORD_MACROS`, the compiler has `alignof` but has no `noexcept` of its own |
| `Capabilities.BuildKindOnlyAffectsVtblBits` | code/comp.msvc.hpp:120-146 | targets that differ only in `_WIN64`, `_DEBUG` or a user vtbl-bit value resolve to profiles that differ at most in the vtbl-bit count |

## Left out

- Debug leak tracing (lines 217-260): the CRT debug includes, the `new` redefinition and the static object that dumps leaks at exit. These are runtime I/O and CRT plumbing.
- Warning push/pop/disable pragmas, `XTL_PRAGMA` and `XTL_MESSAGE` (lines 186-206). These are diagnostics with no behaviour.
- `XTL_ASSUME`, `XTL_UNREACHABLE`, `XTL_LIKELY`/`XTL_UNLIKELY` and the inlining-control macros (lines 158-178). These are optimiser hints.
- `XTL_FUNCTION`, `XTL_COUNTER`, `XTL_MSC_ONLY`/`XTL_NON_MSC_ONLY` and `XTL_UNUSED_TYPEDEF` (lines 115-116, 150-154, 182). These are aliases for compiler intrinsics.
- The dispatch tables that consume `XTL_IRRELEVANT_VTBL_BITS` are not part of this model. Only the arithmetic meaning of dropping the bits is modelled. That includes the extra collisions the comment at lines 125-127 attributes to a too-small value, which arise only in those tables.
- The remark that the right value may depend on the number of virtual functions (lines 124-127). The header implements no such rule.
- Pointers are unbounded naturals. Pointer width appears only as the parameter `w` of `DropShrinksRange`, because the header never states a width.
- `ResolveVtblBits`: a user definition of `XTL_IRRELEVANT_VTBL_BITS` is modelled as a natural number. A macro could be any token sequence, which the preprocessor would reject later or use verbatim.
- User definitions of `XTL_SUPPORT_<feature>` made before the header, for every feature but `vla`, are not inputs of `Target`. Below the threshold the header leaves them defined; at or above it the header defines them again.
- A user definition of `_ALLOW_KEYWORD_MACROS` made before the header is not an input of `Target`. The header leaves it defined at every version. `allowKeywordMacros` records only the header's own definition at 1700.
