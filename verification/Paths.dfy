/** Path names: the tokens that `strtok` finds, and the walk of `fs_lookup` along them. */
module Paths {
  import opened Base
  import opened Bitmap
  import opened Codec
  import opened Volume

  const SLASH: byte := 0x2F

  const MAX_PATH_NAME_SIZE := 200

  /** The length of the token that begins `s`. */
  function TokenLength(s: seq<byte>): (n: nat)
    ensures n <= |s| && forall k | 0 <= k < n :: s[k] != SLASH
    ensures n < |s| ==> s[n] == SLASH
  {
    if s == [] || s[0] == SLASH then 0 else 1 + TokenLength(s[1..])
  }

  /** The pieces of `s` between slashes. */
  function Tokens(s: seq<byte>): seq<seq<byte>> {
    if s == [] then []
    else if s[0] == SLASH then Tokens(s[1..])
    else
      var n := TokenLength(s);
      [s[..n]] + Tokens(s[n..])
  }

  lemma {:induction false} TokenLengthIs(s: seq<byte>, n: nat)
    requires n <= |s| && (forall k | 0 <= k < n :: s[k] != SLASH) && (n < |s| ==> s[n] == SLASH)
    ensures TokenLength(s) == n
  {
    if n > 0 {
      TokenLengthIs(s[1..], n - 1);
    }
  }

  lemma NoTokens()
    ensures Tokens([]) == []
  {
  }

  lemma SkipSlash(s: seq<byte>, i: nat)
    requires i < |s| && s[i] == SLASH
    ensures Tokens(s[i..]) == Tokens(s[i + 1..])
  {
    assert s[i..][1..] == s[i + 1..];
  }

  lemma TokenAt(s: seq<byte>, i: nat, j: nat)
    requires i < j <= |s| && (forall k | i <= k < j :: s[k] != SLASH) && (j < |s| ==> s[j] == SLASH)
    ensures Tokens(s[i..]) == [s[i..j]] + Tokens(if j < |s| then s[j + 1..] else [])
  {
    hide Tokens, TokenLength;
    var r := s[i..];
    TokenLengthIs(r, j - i);
    TokenFirst(r, j - i);
    assert r[..j - i] == s[i..j] && r[j - i..] == s[j..];
    if j < |s| {
      SkipSlash(s, j);
    } else {
      assert s[j..] == [];
      NoTokens();
    }
  }

  lemma TokenFirst(r: seq<byte>, n: nat)
    requires 0 < n <= |r| && r[0] != SLASH && TokenLength(r) == n
    ensures Tokens(r) == [r[..n]] + Tokens(r[n..])
  {
  }

  /** `strtok`: the next token and what follows it, a slash consumed with it. */
  method NextToken(s: seq<byte>) returns (token: Option<seq<byte>>, rest: seq<byte>)
    ensures match token
            case None => Tokens(s) == []
            case Some(t) => Tokens(s) == [t] + Tokens(rest) && |rest| < |s|
  {
    hide Tokens;
    var i := 0;
    assert s[0..] == s;
    while i < |s| && s[i] == SLASH
      invariant 0 <= i <= |s| && Tokens(s) == Tokens(s[i..])
    {
      SkipSlash(s, i);
      i := i + 1;
    }
    if i == |s| {
      NoTokens();
      assert s[i..] == [];
      return None, [];
    }
    var j := i + 1;
    while j < |s| && s[j] != SLASH
      invariant i < j <= |s| && forall k | i <= k < j :: s[k] != SLASH
    {
      j := j + 1;
    }
    TokenAt(s, i, j);
    token := Some(s[i..j]);
    rest := if j < |s| then s[j + 1..] else [];
  }

  /** Return code, and the inode number where the call set it. */
  datatype Looked = Looked(rc: int, id: Option<nat>)

  /** The rest of the walk from inode `dir`; `last` is the inode number handed out so far. */
  function Walk(v: Vol, dir: nat, tokens: seq<seq<byte>>, last: Option<nat>): Looked
    requires Wf(v)
    decreases |tokens|
  {
    if tokens == [] then Looked(1, last)
    else if !IsDir(v, dir) then Looked(-1, last)
    else
      match Search(v.objs[dir].entries, tokens[0], 0)
      case None => Looked(0, last)
      case Some(id) => Walk(v, id, tokens[1..], Some(id))
  }

  /** `fs_lookup`: 1 for a path that exists, 0 for one that does not, -1 for an error. */
  function Lookup(v: Vol, path: seq<byte>): Looked
    requires Wf(v)
  {
    if path == [] || path[0] != SLASH then Looked(-1, None) else Walk(v, 1, Tokens(path), None)
  }

  /** What a search finds is an entry, the first of that name. */
  lemma {:induction false} SearchFinds(entries: seq<Dentry>, name: seq<byte>, e: nat)
    requires e <= |entries|
    ensures match Search(entries, name, e)
            case None => forall k | e <= k < |entries| :: entries[k].name != name
            case Some(id) =>
              exists k | e <= k < |entries| ::
                entries[k] == Dentry(name, id) && forall j | e <= j < k :: entries[j].name != name
    decreases |entries| - e
  {
    if e < |entries| && entries[e].name != name {
      SearchFinds(entries, name, e + 1);
    }
  }

  /** One round of the walk; it stays within the inode table. */
  lemma WalkStep(v: Vol, n: nat, dir: nat, token: seq<byte>, rest: seq<seq<byte>>, last: Option<nat>)
    requires Inv(v, n)
    ensures Walk(v, dir, [token] + rest, last) ==
            if !IsDir(v, dir) then Looked(-1, last)
            else match Search(v.objs[dir].entries, token, 0)
                 case None => Looked(0, last)
                 case Some(id) => Walk(v, id, rest, Some(id))
    ensures IsDir(v, dir) && Search(v.objs[dir].entries, token, 0).Some? ==>
              Search(v.objs[dir].entries, token, 0).value < ITAB_SIZE
  {
    assert ([token] + rest)[1..] == rest;
    if IsDir(v, dir) {
      SearchFinds(v.objs[dir].entries, token, 0);
      assert forall k | 0 <= k < |v.objs[dir].entries| ::
             IsEntry(v, dir, k) && EntryId(v, dir, k) == v.objs[dir].entries[k].id;
    }
  }
}
