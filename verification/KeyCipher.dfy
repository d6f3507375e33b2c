/**
 Encryption of stored channel keys.  The cipher itself is not modelled: any pair of functions
 will do that opens what it has sealed, and whose ciphertexts are single lines with a prefix
 that are longer than what they hold.
 */
module KeyCipher {
  import opened Basics
  import opened Text

  const PREFIX := "enc:v1:"

  datatype Functions = Functions(seal: string -> string, open: string -> Option<string>)

  ghost predicate Ideal(f: Functions) {
    && (forall p :: p != "" && !(PREFIX <= p) ==> f.open(f.seal(p)) == Some(p))
    && (forall s :: f.open(s).Some? ==> PREFIX <= s && IsField(s, '\n') && |f.open(s).value| < |s|)
  }

  type Cipher = f: Functions | Ideal(f) ghost witness UnaryCipher()

  predicate Opens(cipher: Cipher, stored: string) {
    cipher.open(stored).Some?
  }

  /** What a stored key string says; one that does not open is taken as it is. */
  function Plaintext(cipher: Cipher, stored: string): string {
    if Opens(cipher, stored) then cipher.open(stored).value else stored
  }

  /** What is written for a key string; one with the prefix counts as encrypted already. */
  function Encrypted(cipher: Cipher, key: string): string {
    if key == "" || PREFIX <= key then key else cipher.seal(key)
  }

  /** Writing a key string does not change what it says. */
  lemma PlaintextOfEncrypted(cipher: Cipher, key: string)
    ensures Plaintext(cipher, Encrypted(cipher, key)) == Plaintext(cipher, key)
    ensures Encrypted(cipher, key) == "" <==> key == ""
    ensures key != "" && !(PREFIX <= key) ==> Opens(cipher, Encrypted(cipher, key))
  {
    if key != "" && !(PREFIX <= key) {
      assert cipher.open(cipher.seal(key)) == Some(key);
    }
  }

  /** A ciphertext is one line, and not a line of what it holds. */
  lemma CiphertextIsLine(cipher: Cipher, stored: string)
    requires Opens(cipher, stored)
    ensures PREFIX <= stored && IsField(stored, '\n') && |Plaintext(cipher, stored)| < |stored|
  {
  }

  // ----- there are such functions -----

  function Ones(n: nat): string {
    if n == 0 then "" else "1" + Ones(n - 1)
  }

  function Unary(s: string): string {
    if s == "" then "." else Ones(s[0] as int) + "," + Unary(s[1..])
  }

  function UnarySeal(p: string): string {
    PREFIX + Unary(p)
  }

  ghost function UnaryOpen(s: string): Option<string> {
    if exists p :: UnarySeal(p) == s then var p :| UnarySeal(p) == s; Some(p) else None
  }

  lemma {:induction false} OnesInjective(n: nat, m: nat, x: string, y: string)
    requires Ones(n) + "," + x == Ones(m) + "," + y
    ensures n == m && x == y
  {
    OnesStart(n, x);
    OnesStart(m, y);
    if n > 0 && m > 0 {
      OnesInjective(n - 1, m - 1, x, y);
    }
  }

  lemma OnesStart(n: nat, x: string)
    ensures var a := Ones(n) + "," + x;
            if n == 0 then a[0] == ',' && a[1..] == x else a[0] == '1' && a[1..] == Ones(n - 1) + "," + x
  {
  }

  lemma {:induction false} UnaryInjective(p: string, q: string)
    requires Unary(p) == Unary(q)
    ensures p == q
  {
    UnaryStarts(p);
    UnaryStarts(q);
    if p != "" && q != "" {
      OnesInjective(p[0] as int, q[0] as int, Unary(p[1..]), Unary(q[1..]));
      UnaryInjective(p[1..], q[1..]);
      assert p == [p[0]] + p[1..] && q == [q[0]] + q[1..];
    }
  }

  lemma UnaryStarts(p: string)
    ensures Unary(p) != "" && (Unary(p)[0] == '.' <==> p == "")
  {
    if p != "" {
      assert p[0] as int > 0 ==> Ones(p[0] as int)[0] == '1';
    }
  }

  predicate UnaryChar(c: char) {
    c in "1,."
  }

  lemma {:induction false} OnesChars(n: nat)
    ensures forall i :: 0 <= i < |Ones(n)| ==> UnaryChar(Ones(n)[i])
  {
    if n > 0 {
      OnesChars(n - 1);
    }
  }

  lemma {:induction false} UnaryChars(p: string)
    ensures |Unary(p)| > |p|
    ensures forall i :: 0 <= i < |Unary(p)| ==> UnaryChar(Unary(p)[i])
  {
    if p != "" {
      OnesChars(p[0] as int);
      UnaryChars(p[1..]);
    }
  }

  ghost function UnaryCipher(): (f: Functions)
    ensures Ideal(f)
  {
    UnaryIsIdeal();
    Functions(p => UnarySeal(p), s => UnaryOpen(s))
  }

  lemma UnaryOpens(p: string)
    ensures UnaryOpen(UnarySeal(p)) == Some(p)
  {
    var s := UnarySeal(p);
    var q :| UnarySeal(q) == s && UnaryOpen(s) == Some(q);
    assert Unary(p) == s[|PREFIX|..];
    assert Unary(q) == UnarySeal(q)[|PREFIX|..];
    UnaryInjective(p, q);
  }

  lemma SealIsLine(p: string)
    ensures PREFIX <= UnarySeal(p) && IsField(UnarySeal(p), '\n') && |p| < |UnarySeal(p)|
  {
    UnaryChars(p);
    var s := UnarySeal(p);
    assert s[0] == 'e' && UnaryChar(s[|s| - 1]);
    forall i | 0 <= i < |s|
      ensures s[i] != '\n'
    {
      assert i < |PREFIX| || UnaryChar(s[i]);
    }
  }

  lemma UnaryIsIdeal()
    ensures forall p :: UnaryOpen(UnarySeal(p)) == Some(p)
    ensures forall s :: UnaryOpen(s).Some? ==> PREFIX <= s && IsField(s, '\n') && |UnaryOpen(s).value| < |s|
  {
    forall p
      ensures UnaryOpen(UnarySeal(p)) == Some(p)
    {
      UnaryOpens(p);
    }
    forall s | UnaryOpen(s).Some?
      ensures PREFIX <= s && IsField(s, '\n') && |UnaryOpen(s).value| < |s|
    {
      SealIsLine(UnaryOpen(s).value);
    }
  }
}
