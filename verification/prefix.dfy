/** The name normaliser: removal of the configured database table prefix. */
module Prefix {
  import opened Text

  /**
    `stripPrefix` (SqlToMigration.php lines 45-52). The prefix applies only
    when it is truthy in PHP's sense (neither "" nor "0") and the name starts
    with it; the prefix is then removed once.
  */
  function StripPrefix(prefix: string, name: string): (r: string)
    ensures PhpEmpty(prefix) || !(prefix <= name) ==> r == name
    ensures !PhpEmpty(prefix) && prefix <= name ==> prefix + r == name && |r| < |name|
  {
    if !PhpEmpty(prefix) && prefix <= name then name[|prefix|..] else name
  }

  /** The result is always a tail of the name, so it holds no character the name lacks. */
  lemma StripPrefixIsSuffix(prefix: string, name: string)
    ensures |StripPrefix(prefix, name)| <= |name|
    ensures StripPrefix(prefix, name) == name[|name| - |StripPrefix(prefix, name)|..]
    ensures forall c :: c in StripPrefix(prefix, name) ==> c in name
  {
    var r := StripPrefix(prefix, name);
    if !PhpEmpty(prefix) && prefix <= name {
      assert name == prefix + r;
      assert name[|prefix|..] == r;
    }
  }

  /** A name made of word characters loses at most its prefix: what is left is still word characters. */
  lemma StripPrefixOfWord(prefix: string, name: string)
    requires IsWord(name)
    ensures StripPrefix(prefix, name) == [] || IsWord(StripPrefix(prefix, name))
  {
    var r := StripPrefix(prefix, name);
    StripPrefixIsSuffix(prefix, name);
    forall i | 0 <= i < |r| ensures IsWordChar(r[i]) {
      assert r[i] == name[|name| - |r| + i];
    }
  }

  /**
    Stripping is applied once and is not idempotent: with prefix `ci_`, the
    name `ci_ci_users` becomes `ci_users`, which a second strip would change again.
  */
  lemma StripPrefixNotIdempotent()
    ensures StripPrefix("ci_", "ci_ci_users") == "ci_users"
    ensures StripPrefix("ci_", StripPrefix("ci_", "ci_ci_users")) == "users"
  {
    assert "ci_" <= "ci_ci_users";
    assert "ci_ci_users"[3..] == "ci_users";
    assert "ci_" <= "ci_users";
    assert "ci_users"[3..] == "users";
  }
}
