/** Object keys and the physical addresses derived from them:
    internal/validation/validation.go and internal/storage/path.go. */
module Validation {
  import opened Basics

  function RemoveDotDot(s: string): string {
    if |s| < 2 then s
    else if s[0] == '.' && s[1] == '.' then RemoveDotDot(s[2..])
    else [s[0]] + RemoveDotDot(s[1..])
  }

  function ForwardSlashes(s: string): string {
    seq(|s|, i requires 0 <= i < |s| => if s[i] == '\\' then '/' else s[i])
  }

  predicate Slash(c: char) {
    c == '/'
  }

  /** The key as it enters the address hash. */
  function SanitizeKey(key: string): string {
    TrimRight(TrimLeft(ForwardSlashes(RemoveDotDot(key)), Slash), Slash)
  }

  /** A key the service accepts. */
  predicate ValidKey(key: string) {
    && key != ""
    && |key| <= 1024
    && key[0] != '/'
    && (forall i | 0 <= i < |key| :: key[i] >= ' ' && key[i] as int != 0x7f)
    && SanitizeKey(key) != ""
  }

  ghost predicate HasDotDot(s: string) {
    exists i :: 0 <= i && i + 1 < |s| && s[i] == '.' && s[i + 1] == '.'
  }

  /** No two dots stand next to each other in what is left. */
  lemma {:induction false} DotDotRemoved(s: string)
    ensures !HasDotDot(RemoveDotDot(s))
    ensures s != "" && s[0] != '.' ==> RemoveDotDot(s) != "" && RemoveDotDot(s)[0] == s[0]
  {
    if |s| >= 2 {
      if s[0] == '.' && s[1] == '.' {
        DotDotRemoved(s[2..]);
      } else {
        DotDotRemoved(s[1..]);
        var rest := RemoveDotDot(s[1..]);
        assert RemoveDotDot(s) == [s[0]] + rest;
        forall i | 0 <= i && i + 1 < |rest| + 1
          ensures !(([s[0]] + rest)[i] == '.' && ([s[0]] + rest)[i + 1] == '.')
        {
          if i > 0 {
            assert !(rest[i - 1] == '.' && rest[i] == '.');
          }
        }
      }
    }
  }

  lemma {:induction false} DotDotKept(s: string)
    requires !HasDotDot(s)
    ensures RemoveDotDot(s) == s
  {
    if |s| >= 2 {
      assert !(s[0] == '.' && s[1] == '.');
      forall i | 0 <= i && i + 1 < |s[1..]|
        ensures !(s[1..][i] == '.' && s[1..][i + 1] == '.')
      {
        assert !(s[i + 1] == '.' && s[i + 2] == '.');
      }
      DotDotKept(s[1..]);
      assert s == [s[0]] + s[1..];
    }
  }

  /** Trimming cuts a stretch out of the string that neither starts nor ends with a slash. */
  lemma {:induction false} TrimLeftCuts(s: string) returns (k: nat)
    ensures k <= |s| && TrimLeft(s, Slash) == s[k..] && (k < |s| ==> s[k] != '/')
    ensures s != "" && s[0] != '/' ==> k == 0
  {
    if s != "" && s[0] == '/' {
      var j := TrimLeftCuts(s[1..]);
      k := j + 1;
    } else {
      k := 0;
    }
  }

  lemma {:induction false} TrimRightCuts(s: string) returns (k: nat)
    ensures k <= |s| && TrimRight(s, Slash) == s[..k] && (k > 0 ==> s[k - 1] != '/')
    ensures s != "" && s[|s| - 1] != '/' ==> k == |s|
  {
    if s != "" && s[|s| - 1] == '/' {
      k := TrimRightCuts(s[..|s| - 1]);
    } else {
      k := |s|;
    }
  }

  lemma SlashesKeepDots(s: string)
    ensures |ForwardSlashes(s)| == |s| && '\\' !in ForwardSlashes(s)
    ensures !HasDotDot(s) ==> !HasDotDot(ForwardSlashes(s))
  {
    var b := ForwardSlashes(s);
    if !HasDotDot(s) {
      forall k | 0 <= k && k + 1 < |b| ensures !(b[k] == '.' && b[k + 1] == '.') {
        assert !(s[k] == '.' && s[k + 1] == '.');
      }
    }
  }

  lemma CutKeepsClean(s: string, i: nat, j: nat)
    requires i <= j <= |s| && !HasDotDot(s) && '\\' !in s
    ensures !HasDotDot(s[i..j]) && '\\' !in s[i..j]
  {
    forall k | 0 <= k && k + 1 < j - i ensures !(s[i..j][k] == '.' && s[i..j][k + 1] == '.') {
      assert !(s[i + k] == '.' && s[i + k + 1] == '.');
    }
  }

  /** The address of a key holds no parent step, no backslash, and no slash at either end. */
  lemma SanitizedIsClean(key: string)
    ensures var s := SanitizeKey(key);
            && !HasDotDot(s) && '\\' !in s
            && (s != "" ==> s[0] != '/' && s[|s| - 1] != '/')
  {
    var a := RemoveDotDot(key);
    var b := ForwardSlashes(a);
    DotDotRemoved(key);
    SlashesKeepDots(a);
    var i := TrimLeftCuts(b);
    var j := TrimRightCuts(b[i..]);
    assert b[i..][..j] == b[i..i + j];
    CutKeepsClean(b, i, i + j);
  }

  /** Exactly the keys that are clean already are their own address. */
  lemma SanitizedUnchangedIff(key: string)
    ensures SanitizeKey(key) == key <==>
              !HasDotDot(key) && '\\' !in key && (key != "" ==> key[0] != '/' && key[|key| - 1] != '/')
  {
    SanitizedIsClean(key);
    if !HasDotDot(key) && '\\' !in key && (key != "" ==> key[0] != '/' && key[|key| - 1] != '/') {
      DotDotKept(key);
      assert ForwardSlashes(key) == key;
    }
  }

  type Address = (string, string)

  /** Where an object's bytes live; the SHA-256 of this pair names the file. */
  function BlobAddress(bucket: string, key: string): Address {
    (bucket, SanitizeKey(key))
  }

  /** Different keys of a set never share a blob. */
  ghost predicate NoAliases(keys: set<(string, string)>) {
    forall x, y | x in keys && y in keys && BlobAddress(x.0, x.1) == BlobAddress(y.0, y.1) :: x == y
  }

  /** Accepted keys can share a blob: a trailing slash is dropped from the address. */
  lemma AcceptedKeysCanAlias(bucket: string)
    ensures ValidKey("a") && ValidKey("a/") && !NoAliases({(bucket, "a"), (bucket, "a/")})
  {
    assert RemoveDotDot("a") == "a" && ForwardSlashes("a") == "a";
    assert "a/"[1..] == "/" && RemoveDotDot("/") == "/";
    assert RemoveDotDot("a/") == "a/" && ForwardSlashes("a/") == "a/";
    assert "a/"[..1] == "a";
    assert SanitizeKey("a") == "a" && SanitizeKey("a/") == "a";
    var x, y := (bucket, "a"), (bucket, "a/");
    assert BlobAddress(x.0, x.1) == BlobAddress(y.0, y.1);
  }
}
