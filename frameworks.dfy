/**
 * `NuGetFramework` as the lock file code uses it: compared with `Equals` and
 * printed with `ToString`. Parsing and the framework's own fields are not
 * part of this model.
 */
module Frameworks {

  /** `key` is what `Equals` compares; `text` is `ToString()`. */
  datatype NuGetFramework = NuGetFramework(key: string, text: string)

  /** `NuGetFramework.Equals`. */
  predicate FrameworkEquals(a: NuGetFramework, b: NuGetFramework)
  {
    a.key == b.key
  }
}
