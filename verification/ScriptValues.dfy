/** Strings and numbers as JavaScript looks at them. */
module ScriptValues {

  import opened Options

  /** The characters that `trim` strips and the class `\s` of regular expressions matches. */
  predicate IsSpace(c: char) {
    var n := c as int;
    9 <= n <= 13 || n == 32 || n == 0xA0 || n == 0x1680 || 0x2000 <= n <= 0x200A || n == 0x2028 || n == 0x2029 ||
    n == 0x202F || n == 0x205F || n == 0x3000 || n == 0xFEFF
  }

  /** Nothing is left of the string after `trim`. */
  predicate Blank(s: string) {
    forall i :: 0 <= i < |s| ==> IsSpace(s[i])
  }

  /** The truth value of an optional string. */
  predicate Given(s: Option<string>) {
    s.Some? && s.value != ""
  }

  const MAX_SAFE_INTEGER := 0x1F_FFFF_FFFF_FFFF

  predicate SafeInteger(n: int) {
    -MAX_SAFE_INTEGER <= n <= MAX_SAFE_INTEGER
  }
}
