/**
 internal/auth/backup_codes.go: the file of one user's recovery codes. A hash is
 taken as injective and stands for the normalised code; a missing file is an empty
 list. Every request opens a store of its own, so between its load and its save any
 other request may have written the file.
 */
module BackupCodes {
  import Text

  datatype Code = Code(hash: string, used: bool)

  type Codes = seq<Code>

  /** Codes are compared in lower case and without dashes. */
  function Key(code: string): (k: string) { Text.ToLower(Text.ReplaceAll(code, "-", "")) }

  /** Typing a code in capitals or with its dash makes no difference. */
  lemma KeyIgnoresDashAndCase(a: string, b: string)
    ensures Key(a + "-" + b) == Key(a + b)
    ensures Text.ToLower(a) == Text.ToLower(b) ==> Key(a) == Key(b)
  {
    WithoutDashes(a + "-" + b);
    WithoutDashes(a + b);
    DroppedConcat(a, b);
    if Text.ToLower(a) == Text.ToLower(b) {
      WithoutDashes(a);
      WithoutDashes(b);
      DroppedLower(a, b);
    }
  }

  function Dropped(s: string): (r: string) {
    if s == "" then "" else (if s[0] == '-' then "" else [s[0]]) + Dropped(s[1..])
  }

  lemma {:induction false} WithoutDashes(s: string)
    ensures Text.ReplaceAll(s, "-", "") == Dropped(s)
  {
    if s != "" {
      WithoutDashes(s[1..]);
      assert s[..1] == "-" <==> s[0] == '-';
    }
  }

  lemma {:induction false} DroppedConcat(a: string, b: string)
    ensures Dropped(a + "-" + b) == Dropped(a + b)
  {
    if a == "" {
      assert a + "-" + b == "-" + b && ("-" + b)[1..] == b && a + b == b;
    } else {
      DroppedConcat(a[1..], b);
      assert (a + "-" + b)[1..] == a[1..] + "-" + b && (a + b)[1..] == a[1..] + b;
    }
  }

  lemma {:induction false} DroppedLower(a: string, b: string)
    requires Text.ToLower(a) == Text.ToLower(b)
    ensures Text.ToLower(Dropped(a)) == Text.ToLower(Dropped(b))
  {
    assert |Text.ToLower(a)| == |a| && |Text.ToLower(b)| == |b|;
    if a != "" {
      assert Text.LowerChar(a[0]) == Text.ToLower(a)[0] == Text.ToLower(b)[0] == Text.LowerChar(b[0]);
      assert Text.ToLower(a[1..]) == Text.ToLower(a)[1..] && Text.ToLower(b[1..]) == Text.ToLower(b)[1..];
      DroppedLower(a[1..], b[1..]);
      LowerCons(a[0], Dropped(a[1..]));
      LowerCons(b[0], Dropped(b[1..]));
      assert a[0] == '-' <==> b[0] == '-';
      assert Dropped(a) == if a[0] == '-' then Dropped(a[1..]) else [a[0]] + Dropped(a[1..]);
      assert Dropped(b) == if b[0] == '-' then Dropped(b[1..]) else [b[0]] + Dropped(b[1..]);
    }
  }

  lemma LowerCons(c: char, s: string)
    ensures Text.ToLower([c] + s) == [Text.LowerChar(c)] + Text.ToLower(s)
    ensures Text.LowerChar(c) == '-' <==> c == '-'
  {
  }

  predicate Fits(c: Code, key: string) { c.hash == key && !c.used }

  /** How many entries of the file a code can still be spent on. */
  function Unused(codes: Codes, key: string): (n: nat) {
    if codes == [] then 0 else (if Fits(codes[0], key) then 1 else 0) + Unused(codes[1..], key)
  }

  /** The file with the first entry that fits marked as used. */
  function Spent(codes: Codes, key: string): (codes': Codes) {
    if codes == [] then []
    else if Fits(codes[0], key) then [codes[0].(used := true)] + codes[1..]
    else [codes[0]] + Spent(codes[1..], key)
  }

  function Fresh(keys: seq<string>): (codes: Codes) {
    if keys == [] then [] else [Code(keys[0], false)] + Fresh(keys[1..])
  }

  function Occurrences(keys: seq<string>, key: string): (n: nat) {
    if keys == [] then 0 else (if keys[0] == key then 1 else 0) + Occurrences(keys[1..], key)
  }

  /** Spending takes one entry of that code away, and none of any other. */
  lemma {:induction false} SpentCounts(codes: Codes, key: string, other: string)
    ensures Unused(Spent(codes, key), other)
         == if other == key && Unused(codes, key) > 0 then Unused(codes, key) - 1 else Unused(codes, other)
  {
    if codes != [] {
      SpentCounts(codes[1..], key, other);
      var spent := Spent(codes, key);
      assert spent[1..] == if Fits(codes[0], key) then codes[1..] else Spent(codes[1..], key);
    }
  }

  /** What is handed out can be spent as often as it was handed out. */
  lemma {:induction false} FreshCounts(keys: seq<string>, key: string)
    ensures Unused(Fresh(keys), key) == Occurrences(keys, key)
  {
    if keys != [] {
      FreshCounts(keys[1..], key);
      assert Fresh(keys)[1..] == Fresh(keys[1..]);
    }
  }

  lemma {:induction false} SpentAt(codes: Codes, key: string, i: nat)
    requires i <= |codes| && forall j | 0 <= j < i :: !Fits(codes[j], key)
    requires i < |codes| ==> Fits(codes[i], key)
    ensures Unused(codes, key) > 0 <==> i < |codes|
    ensures Spent(codes, key) == if i < |codes| then codes[i := codes[i].(used := true)] else codes
  {
    if i > 0 {
      SpentAt(codes[1..], key, i - 1);
      assert codes == [codes[0]] + codes[1..];
    }
  }

  class Store {
    var codes: Codes

    constructor (codes: Codes)
      ensures this.codes == codes
    {
      this.codes := codes;
    }

    /** `meanwhile` is the file as others leave it between the load and the save. */
    method TryConsume(code: string, readable: bool, meanwhile: Codes, saved: bool) returns (ok: bool)
      modifies this
      ensures ok <==> readable && saved && Unused(old(codes), Key(code)) > 0
      ensures codes == if ok then Spent(old(codes), Key(code))
                       else if readable && Unused(old(codes), Key(code)) > 0 then meanwhile else old(codes)
    {
      hide Key, Unused, Spent;
      if !readable { return false; }
      var file := codes;
      var target := Key(code);
      var i := 0;
      while i < |file| && !Fits(file[i], target)
        invariant 0 <= i <= |file| && forall j | 0 <= j < i :: !Fits(file[j], target)
      {
        i := i + 1;
      }
      SpentAt(file, target, i);
      if i == |file| { return false; }
      file := file[i := file[i].(used := true)];
      codes := meanwhile;
      if !saved { return false; }
      codes := file;
      return true;
    }
  }
}
