/**
 * The version types of the versioning library, as far as the lock file code
 * uses them. Their parsing, normalisation and formatting are not part of this
 * model, so each value carries the texts its `ToString` methods produce and
 * the key its `Equals` compares.
 */
module Versioning {
  import opened Wrappers

  /**
   * A `NuGetVersion`. `text` is `ToString()`; `versionText` is
   * `Version.ToString()`, the numeric part without a release label; two
   * versions are `Equals` exactly when their keys agree.
   */
  datatype NuGetVersion = NuGetVersion(key: string, text: string, versionText: string)

  /** `NuGetVersion.Equals`. */
  predicate VersionEquals(a: NuGetVersion, b: NuGetVersion)
  {
    a.key == b.key
  }

  /** A `FloatRange`; `text` is its `ToString()`, the floating pattern such as "1.0.*". */
  datatype FloatRange = FloatRange(text: string)

  /**
   * A `VersionRange`: optional lower and upper bounds, whether each bound is
   * inclusive, whether the range floats, and its float pattern.
   */
  datatype VersionRange = VersionRange(
    minVersion: Option<NuGetVersion>,
    maxVersion: Option<NuGetVersion>,
    isMinInclusive: bool,
    isMaxInclusive: bool,
    isFloating: bool,
    float: Option<FloatRange>)

  /**
   * What rendering a range dereferences: the float pattern when it floats,
   * the lower bound when it does not.
   */
  predicate Renderable(vr: VersionRange)
  {
    (vr.isFloating ==> vr.float.Some?) && (!vr.isFloating ==> vr.minVersion.Some?)
  }
}
