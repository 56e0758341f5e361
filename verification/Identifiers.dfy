/** The name grammars that records, features and weights share. */
module Identifiers {

  predicate NameChar(c: char) {
    'a' <= c <= 'z' || '0' <= c <= '9' || c == '_' || c == '.' || c == '-'
  }

  predicate FeatureName(s: string) {
    1 <= |s| <= 64 && 'a' <= s[0] <= 'z' && forall i :: 0 <= i < |s| ==> NameChar(s[i])
  }

  predicate RecordId(s: string) {
    && 1 <= |s| <= 128 && ('a' <= s[0] <= 'z' || '0' <= s[0] <= '9')
    && forall i :: 0 <= i < |s| ==> NameChar(s[i]) || s[i] == ':'
  }

  /** A name is one to 64 characters of the ASCII codes of small letters, digits, and "_", "." or "-"; a letter comes first. */
  lemma FeatureNameExactly(s: string)
    ensures FeatureName(s) <==>
      && s != "" && |s| < 65 && 97 <= s[0] as int <= 122
      && forall i :: 0 <= i < |s| ==> 97 <= s[i] as int <= 122 || 48 <= s[i] as int <= 57 || s[i] as int in {45, 46, 95}
  {
  }

  /** A record ID may be twice as long, start with a digit and hold colons after its first character. */
  lemma RecordIdExactly(s: string)
    ensures RecordId(s) <==>
      && s != "" && |s| < 129 && (97 <= s[0] as int <= 122 || 48 <= s[0] as int <= 57)
      && forall i :: 0 <= i < |s| ==> 97 <= s[i] as int <= 122 || 48 <= s[i] as int <= 57 || s[i] as int in {45, 46, 58, 95}
  {
  }
}
