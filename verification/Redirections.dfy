/** Which address a redirection names, and what following it does. */
module Redirections {
  import opened Bytes
  import opened Decimal
  import opened Protocol
  import opened HashSlot
  import opened Coverage
  import opened RoutingTable
  import opened ClusterModel
  import opened ClusterProofs
  import Shapes

  // ----- the text of a redirection

  /** A word: not empty, without space, colon and NUL. */
  predicate IsWord(word: seq<byte>) {
    word != [] && 32 !in word && 58 !in word && 0 !in word
  }

  lemma {:induction false} DelimitedStops(word: seq<byte>, rest: seq<byte>)
    requires 32 !in word && 58 !in word && (rest == [] || rest[0] == 32 || rest[0] == 58)
    ensures Delimited(word + rest) == |word|
  {
    if word == [] {
      assert word + rest == rest;
    } else {
      assert word[0] in word && (word + rest)[1..] == word[1..] + rest;
      DelimitedStops(word[1..], rest);
    }
  }

  lemma FirstToken(word: seq<byte>, delimiter: byte, rest: seq<byte>)
    requires IsWord(word) && (delimiter == 32 || delimiter == 58)
    ensures Tokens(word + ([delimiter] + rest)) == [word] + Tokens(rest)
  {
    var text := word + ([delimiter] + rest);
    DelimitedStops(word, [delimiter] + rest);
    assert text[0] == word[0] && word[0] in word;
    assert text[..|word|] == word && text[|word|..] == [delimiter] + rest;
    assert ([delimiter] + rest)[1..] == rest;
  }

  lemma LastToken(word: seq<byte>)
    requires IsWord(word)
    ensures Tokens(word) == [word]
  {
    DelimitedStops(word, []);
    assert word + [] == word && word[0] in word;
    assert word[..|word|] == word && word[|word|..] == [];
  }

  /** "code slot" */
  function TwoWords(code: seq<byte>, slot: seq<byte>): seq<byte> {
    code + ([32] + slot)
  }

  /** "code slot ip" */
  function ThreeWords(code: seq<byte>, slot: seq<byte>, ip: seq<byte>): seq<byte> {
    code + ([32] + (slot + ([32] + ip)))
  }

  /** "code slot ip:port" */
  function RedirectText(code: seq<byte>, slot: seq<byte>, ip: seq<byte>, port: int): seq<byte> {
    code + ([32] + (slot + ([32] + (ip + ([58] + Print(port))))))
  }

  lemma PortIsWord(port: int)
    ensures IsWord(Print(port))
  {
    hide Digits;
  }

  /** The third word and what follows its colon are the address; without them it stays what it was. */
  lemma TextNamesAddress(code: seq<byte>, slot: seq<byte>, ip: seq<byte>, port: uint16, before: Address)
    requires IsWord(code) && IsWord(slot) && IsWord(ip)
    ensures RedirectAddress(RedirectText(code, slot, ip, port), before) == Address(ip, port)
    ensures RedirectAddress(ThreeWords(code, slot, ip), before) == Address(ip, before.port)
    ensures RedirectAddress(TwoWords(code, slot), before) == before
  {
    hide Tokens, CString, Strtol, Print, Delimited;
    PortIsWord(port);
    StrtolOfPrint(port);
    Shapes.CStringWhole(RedirectText(code, slot, ip, port));
    Shapes.CStringWhole(ThreeWords(code, slot, ip));
    Shapes.CStringWhole(TwoWords(code, slot));
    FirstToken(code, 32, slot + ([32] + (ip + ([58] + Print(port)))));
    FirstToken(slot, 32, ip + ([58] + Print(port)));
    FirstToken(ip, 58, Print(port));
    LastToken(Print(port));
    FirstToken(code, 32, slot + ([32] + ip));
    FirstToken(slot, 32, ip);
    LastToken(ip);
    FirstToken(code, 32, slot);
    LastToken(slot);
  }

  lemma {:induction false} CodeStops(code: seq<byte>, rest: seq<byte>)
    requires 32 !in code
    ensures ErrorCode(code + ([32] + rest)) == code
  {
    var text := code + ([32] + rest);
    if code != [] {
      assert code[0] in code && text[1..] == code[1..] + ([32] + rest);
      CodeStops(code[1..], rest);
    }
  }

  /** A simple error "MOVED ..." or "ASK ..." is a redirection, one with another first word is none, and no
      other kind of value is. */
  lemma FirstWordDecides(mark: Option<Table>, code: seq<byte>, rest: seq<byte>, other: Node)
    requires 32 !in code
    ensures RedirectionOf(Node(mark, Text(SimpleError, code + ([32] + rest)))) ==
      if code == [77, 79, 86, 69, 68] then Move else if code == [65, 83, 75] then Ask else Neither
    ensures !(other.data.Text? && other.data.textKind == SimpleError) ==> RedirectionOf(other) == Neither
  {
    CodeStops(code, rest);
  }

  // ----- following it

  predicate HasNode(table: seq<ClusterNode>, address: Address) {
    exists n :: 0 <= n < |table| && table[n].address == address
  }

  lemma HasNodeIs(table: seq<ClusterNode>, address: Address)
    ensures KnowsAddress(table, address) <==> HasNode(table, address)
  {
    hide IndexOfAddress;
  }

  /** A request whose response redirects it to `address`: the second redirection in a row, or one to an
      unknown node, sends it back to the slot table; otherwise it goes to that address next. */
  function Redirected(r: Request, table: seq<ClusterNode>, address: Address): Request {
    if r.redirectCount == 1 then Request(r.id, r.slot, Unsent, 0, r.redirect, r.hops)
    else if !HasNode(table, address) then Request(r.id, r.slot, Unsent, r.redirectCount + 1, address, r.hops)
    else Request(r.id, r.slot, Pending, r.redirectCount + 1, address, r.hops + 1)
  }

  /** A pass that comes to a request with the response "MOVED slot ip:port" redirects it to that address,
      marks the configuration dirty and ends. */
  lemma MovedIsFollowed(s: State, mark: Option<Table>, slot: seq<byte>, ip: seq<byte>, port: uint16, i: nat)
    requires s.cursor == Some(i) && i < |s.requests| && s.config == Stable && IsWord(slot) && IsWord(ip)
    requires var text := RedirectText([77, 79, 86, 69, 68], slot, ip, port);
      s.requests[i].phase == Ready(Node(mark, Text(SimpleError, text)))
    ensures var r := Redirected(s.requests[i], s.table, Address(ip, port));
      Next(s, ReduceNext) == Some(s.(requests := s.requests[i := r], config := Dirty, cursor := None,
                                     owed := s.owed + if r.phase == Pending then [Response(r.id)] else []))
  {
    hide Tokens, CString, Strtol, Print, RedirectAddress, RedirectionOf, KnowsAddress, IsWord;
    RedirectionReads([77, 79, 86, 69, 68], mark, slot, ip, port, s.requests[i].redirect);
    HasNodeIs(s.table, Address(ip, port));
    assert s.owed + [] == s.owed;
  }

  /** One that comes to "ASK slot ip:port" redirects it too, but sends ASKING before, leaves the
      configuration alone and goes on. */
  lemma AskIsFollowed(s: State, mark: Option<Table>, slot: seq<byte>, ip: seq<byte>, port: uint16, i: nat)
    requires s.cursor == Some(i) && i < |s.requests| && s.config == Stable && IsWord(slot) && IsWord(ip)
    requires var text := RedirectText([65, 83, 75], slot, ip, port);
      s.requests[i].phase == Ready(Node(mark, Text(SimpleError, text)))
    ensures var r := Redirected(s.requests[i], s.table, Address(ip, port));
      Next(s, ReduceNext) == Some(s.(requests := s.requests[i := r], cursor := Some(i + 1),
                                     owed := s.owed + if r.phase == Pending then [Asking(r.id)] else []))
  {
    hide Tokens, CString, Strtol, Print, RedirectAddress, RedirectionOf, KnowsAddress, IsWord;
    RedirectionReads([65, 83, 75], mark, slot, ip, port, s.requests[i].redirect);
    HasNodeIs(s.table, Address(ip, port));
    assert s.owed + [] == s.owed;
  }

  lemma RedirectionReads(code: seq<byte>, mark: Option<Table>, slot: seq<byte>, ip: seq<byte>, port: uint16,
                         before: Address)
    requires code == [77, 79, 86, 69, 68] || code == [65, 83, 75]
    requires IsWord(slot) && IsWord(ip)
    ensures RedirectAddress(RedirectText(code, slot, ip, port), before) == Address(ip, port)
    ensures RedirectionOf(Node(mark, Text(SimpleError, RedirectText(code, slot, ip, port)))) ==
      if code == [65, 83, 75] then Ask else Move
  {
    hide Tokens, CString, Strtol, Print, RedirectAddress, RedirectionOf;
    TextNamesAddress(code, slot, ip, port, before);
    FirstWordDecides(mark, code, slot + ([32] + (ip + ([58] + Print(port)))), Node(None, Null));
  }

  /** Any response to ASKING: the request itself is sent to the address, if there is still a node there. */
  lemma AskedGoesOn(s: State, id: nat, k: nat, j: nat, response: Node)
    requires s.cursor.None? && s.config != Crashed && j < |s.owed| && s.owed[j] == Asking(id)
    requires k < |s.requests| && s.requests[k].id == id && forall i :: 0 <= i < k ==> s.requests[i].id != id
    ensures var r := s.requests[k]; var rest := s.owed[..j] + s.owed[j + 1..];
      Next(s, Answer(j, response)) ==
        if HasNode(s.table, r.redirect)
        then Some(s.(requests := s.requests[k := r.(phase := Pending)], owed := rest + [Response(id)]))
        else Some(s.(requests := s.requests[k := r.(phase := Unsent)], owed := rest))
  {
    hide KnowsAddress, IndexOfRequest, RedirectionOf;
    HasNodeIs(s.table, s.requests[k].redirect);
  }
}
