/** Common names as path components (internal/fsx/name.go). */
module Names {
  import opened Wrappers
  import Text

  predicate IsWord(c: char) {
    'A' <= c <= 'Z' || 'a' <= c <= 'z' || '0' <= c <= '9' || c == '_'
  }

  predicate IsKeyChar(c: char) { IsWord(c) || c == '.' || c == '-' }

  /** StoreKeyRe: one word character, then at most 63 key characters. */
  predicate StoreKey(s: string) {
    1 <= |s| <= 64 && IsWord(s[0]) && forall c :: c in s ==> IsKeyChar(c)
  }

  /** The name as a path component, or None for a name the store rejects. */
  function SafeCN(cn: string): (r: Option<string>)
    ensures r.Some? ==> StoreKey(r.value) && r.value == Text.TrimSpace(cn)
    ensures StoreKey(cn) ==> r == Some(cn)
  {
    var name := Text.TrimSpace(cn);
    assert StoreKey(cn) ==> IsKeyChar(cn[0]) && cn[|cn| - 1] in cn;
    if StoreKey(name) then Some(name) else None
  }

  /** A store key is accepted with any white space around it, and nothing else is accepted. */
  lemma SafeCNExactly(cn: string)
    ensures SafeCN(cn).Some? <==> exists a, name, b :: Text.Blank(a) && Text.Blank(b) && StoreKey(name) && cn == a + name + b
    ensures forall a, name, b :: Text.Blank(a) && Text.Blank(b) && StoreKey(name) && cn == a + name + b ==> SafeCN(cn) == Some(name)
  {
    hide Text.TrimSpace, Text.Blank, StoreKey;
    forall a, name, b | Text.Blank(a) && Text.Blank(b) && StoreKey(name) && cn == a + name + b ensures SafeCN(cn) == Some(name) {
      KeyIsTrimmed(name);
      Text.TrimPadded(a, name, b);
    }
    var a, b := Text.Padding(cn);
  }

  lemma KeyIsTrimmed(name: string)
    requires StoreKey(name)
    ensures Text.Trimmed(name)
  {
    assert IsKeyChar(name[0]) && name[|name| - 1] in name;
  }

  function Sanitize(s: string): (r: string)
    ensures |r| == |s|
    ensures forall c :: c in r ==> IsKeyChar(c)
    ensures r == s <==> forall c :: c in s ==> IsKeyChar(c)
  {
    if s == "" then "" else
      assert s == [s[0]] + s[1..];
      [if IsKeyChar(s[0]) then s[0] else '_'] + Sanitize(s[1..])
  }

  /** Exactly the characters that no key can have become underscores. */
  lemma {:induction false} SanitizeExactly(s: string, i: nat)
    requires i < |s|
    ensures Sanitize(s)[i] == if IsKeyChar(s[i]) then s[i] else '_'
  {
    if i > 0 { SanitizeExactly(s[1..], i - 1); }
  }

  predicate HookCNValid(safe: string) { StoreKey(safe) }
}
