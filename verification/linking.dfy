/** Library linking of deploy bytecode (`abiReplaceBinaries` in src/script.js): the
    global regular-expression replace of `/__(.{38})/g`. A placeholder is 40
    characters: two underscores and 38 characters that are not line terminators.
    Matches are taken left to right without overlap. */
module Linking {
  import opened Outcomes
  import opened Text
  import Resolution

  const TokenLength: nat := 40

  /** A placeholder begins at the start of `s`. */
  predicate PlaceholderAt(s: string) {
    |s| >= TokenLength && s[0] == '_' && s[1] == '_'
    && forall i :: 2 <= i < TokenLength ==> !IsLineTerminator(s[i])
  }

  datatype Piece = Literal(c: char) | Placeholder(token: string)

  /** How the regular expression cuts the bytecode. */
  function Scan(code: string): (r: seq<Piece>)
    ensures forall p :: p in r && p.Placeholder? ==> PlaceholderAt(p.token) && |p.token| == TokenLength
    decreases |code|
  {
    if |code| == 0 then []
    else if PlaceholderAt(code) then [Placeholder(code[..TokenLength])] + Scan(code[TokenLength..])
    else [Literal(code[0])] + Scan(code[1..])
  }

  function Render(pieces: seq<Piece>): string {
    if |pieces| == 0 then ""
    else (match pieces[0] case Literal(c) => [c] case Placeholder(t) => t) + Render(pieces[1..])
  }

  /** The cut loses and invents nothing. */
  lemma {:induction false} ScanRender(code: string)
    ensures Render(Scan(code)) == code
    decreases |code|
  {
    if |code| > 0 {
      if PlaceholderAt(code) {
        ScanRender(code[TokenLength..]);
        assert code == code[..TokenLength] + code[TokenLength..];
      } else {
        ScanRender(code[1..]);
        assert code == [code[0]] + code[1..];
      }
    }
  }

  /** `_.trim(token, '_').split(':')[0].replace(/\.sol$/, '')` */
  function LibraryName(token: string): (r: string)
    ensures ':' !in r && |r| <= |token|
    ensures StartsWith(Trim(token, '_'), r)
  {
    var s := Before(Trim(token, '_'), ':');
    if EndsWith(s, ".sol") then s[..|s| - 4] else s
  }

  /** `!CONTRACT_ADDRESS[lib]` is false: the library has a non-empty address. */
  predicate Linkable(addrs: Resolution.AddressTable, lib: string) {
    lib in addrs && addrs[lib] != ""
  }

  predicate AllLinkable(pieces: seq<Piece>, addrs: Resolution.AddressTable) {
    forall i :: 0 <= i < |pieces| && pieces[i].Placeholder? ==> Linkable(addrs, LibraryName(pieces[i].token))
  }

  /** What a piece becomes once linked. */
  function Substitute(p: Piece, addrs: Resolution.AddressTable): string
    requires p.Placeholder? ==> Linkable(addrs, LibraryName(p.token))
  {
    match p
    case Literal(c) => [c]
    case Placeholder(t) => DropPrefix(addrs[LibraryName(t)], 2)
  }

  /** The replace callback applied to each piece in turn; the first unknown library
      stops the run. */
  function Link(pieces: seq<Piece>, addrs: Resolution.AddressTable): Result<string, Failure> {
    if |pieces| == 0 then Ok("")
    else if pieces[0].Placeholder? && !Linkable(addrs, LibraryName(pieces[0].token)) then
      Err(UnknownLibrary(LibraryName(pieces[0].token)))
    else
      var rest := Link(pieces[1..], addrs);
      if rest.Err? then rest else Ok(Substitute(pieces[0], addrs) + rest.value)
  }

  predicate PieceLinkable(p: Piece, addrs: Resolution.AddressTable) {
    p.Placeholder? ==> Linkable(addrs, LibraryName(p.token))
  }

  lemma AllLinkableCons(pieces: seq<Piece>, addrs: Resolution.AddressTable)
    requires |pieces| > 0
    ensures AllLinkable(pieces, addrs) <==> PieceLinkable(pieces[0], addrs) && AllLinkable(pieces[1..], addrs)
  {
    assert forall i :: 1 <= i < |pieces| ==> pieces[i] == pieces[1..][i - 1];
  }

  /** Linking succeeds exactly when every placeholder names a known library. */
  lemma {:induction false} LinkOkIff(pieces: seq<Piece>, addrs: Resolution.AddressTable)
    ensures Link(pieces, addrs).Ok? <==> AllLinkable(pieces, addrs)
  {
    if |pieces| > 0 {
      LinkOkIff(pieces[1..], addrs);
      AllLinkableCons(pieces, addrs);
    }
  }

  /** A failed link names the library of the first placeholder that cannot be linked. */
  lemma {:induction false} LinkFirstFailure(pieces: seq<Piece>, addrs: Resolution.AddressTable)
    requires Link(pieces, addrs).Err?
    ensures exists i :: 0 <= i < |pieces| && pieces[i].Placeholder?
                        && !Linkable(addrs, LibraryName(pieces[i].token))
                        && Link(pieces, addrs).error == UnknownLibrary(LibraryName(pieces[i].token))
                        && AllLinkable(pieces[..i], addrs)
  {
    if pieces[0].Placeholder? && !Linkable(addrs, LibraryName(pieces[0].token)) {
      assert AllLinkable(pieces[..0], addrs);
    } else {
      var tail := pieces[1..];
      LinkFirstFailure(tail, addrs);
      var i :| 0 <= i < |tail| && tail[i].Placeholder?
               && !Linkable(addrs, LibraryName(tail[i].token))
               && Link(tail, addrs).error == UnknownLibrary(LibraryName(tail[i].token))
               && AllLinkable(tail[..i], addrs);
      assert pieces[i + 1] == tail[i];
      assert Link(pieces, addrs).error == Link(tail, addrs).error;
      LinkablePrefixCons(pieces, addrs, i);
    }
  }

  /** A linkable first piece extends a linkable prefix of the rest. */
  lemma LinkablePrefixCons(pieces: seq<Piece>, addrs: Resolution.AddressTable, i: nat)
    requires i < |pieces| - 1 && PieceLinkable(pieces[0], addrs) && AllLinkable(pieces[1..][..i], addrs)
    ensures AllLinkable(pieces[..i + 1], addrs)
  {
    var pre, rest := pieces[..i + 1], pieces[1..][..i];
    forall k | 0 <= k < |pre| && pre[k].Placeholder? ensures Linkable(addrs, LibraryName(pre[k].token)) {
      if k > 0 {
        assert pre[k] == rest[k - 1];
      }
    }
  }

  /** `abiReplaceBinaries(code)`: every placeholder replaced by its library's address
      without its first two characters; an unknown library is fatal. */
  function LinkLibraries(code: string, addrs: Resolution.AddressTable): (r: Result<string, Failure>)
    ensures r.Ok? <==> AllLinkable(Scan(code), addrs)
    ensures r.Err? ==> exists p :: p in Scan(code) && p.Placeholder? && !Linkable(addrs, LibraryName(p.token))
                                   && r.error == UnknownLibrary(LibraryName(p.token))
  {
    LinkOkIff(Scan(code), addrs);
    var r := Link(Scan(code), addrs);
    if r.Err? then LinkFirstFailure(Scan(code), addrs); r else r
  }

  /** Bytecode with no placeholder is left as it is. */
  lemma {:induction false} LinkWithoutPlaceholders(pieces: seq<Piece>, addrs: Resolution.AddressTable)
    requires forall p :: p in pieces ==> p.Literal?
    ensures Link(pieces, addrs) == Ok(Render(pieces))
  {
    if |pieces| > 0 {
      assert pieces[0] in pieces;
      LinkWithoutPlaceholders(pieces[1..], addrs);
    }
  }

  /** When every library address has the usual 42 characters ("0x" and 40 hex
      digits), linking preserves the length of the bytecode. */
  lemma {:induction false} LinkPreservesLength(pieces: seq<Piece>, addrs: Resolution.AddressTable)
    requires forall p :: p in pieces && p.Placeholder? ==> |p.token| == TokenLength
    requires forall lib :: lib in addrs ==> |addrs[lib]| == 42
    ensures Link(pieces, addrs).Ok? ==> |Link(pieces, addrs).value| == |Render(pieces)|
  {
    if |pieces| > 0 {
      assert pieces[0] in pieces;
      assert forall p :: p in pieces[1..] ==> p in pieces;
      LinkPreservesLength(pieces[1..], addrs);
    }
  }

  lemma LinkLibrariesPreservesLength(code: string, addrs: Resolution.AddressTable)
    requires forall lib :: lib in addrs ==> |addrs[lib]| == 42
    ensures LinkLibraries(code, addrs).Ok? ==> |LinkLibraries(code, addrs).value| == |code|
  {
    LinkPreservesLength(Scan(code), addrs);
    ScanRender(code);
  }

  /** Bytecode without "__" has no placeholder and comes back unchanged. */
  lemma {:induction false} LinkIdentityWithoutUnderscorePair(code: string, addrs: Resolution.AddressTable)
    requires forall i :: 0 <= i < |code| - 1 ==> !(code[i] == '_' && code[i + 1] == '_')
    ensures LinkLibraries(code, addrs) == Ok(code)
  {
    NoPairNoPlaceholder(code);
    LinkWithoutPlaceholders(Scan(code), addrs);
    ScanRender(code);
  }

  lemma {:induction false} NoPairNoPlaceholder(code: string)
    requires forall i :: 0 <= i < |code| - 1 ==> !(code[i] == '_' && code[i + 1] == '_')
    ensures forall p :: p in Scan(code) ==> p.Literal?
    decreases |code|
  {
    if |code| > 0 {
      assert !PlaceholderAt(code);
      NoPairNoPlaceholder(code[1..]);
    }
  }
}
