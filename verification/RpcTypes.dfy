/** The vocabulary of the generated RPC code: call kinds, message tags, and which `case` arms the generator
    emits for each side of an interface. */
module RpcTypes {

  datatype CallKind = SyncCall | AsyncCall | AsyncUpcall

  /** An interface file, seen as the kind of each function it declares. */
  type Interface = map<string, CallKind>

  datatype Side = Client | Server

  datatype Tag = Verify | Request(name: string) | Response(name: string)

  /** `serial` identifies the call a message belongs to; the generated code never looks at it. */
  datatype Message = Message(tag: Tag, serial: nat, payload: int)

  /** An upcall is made by the server and handled by the client; a call goes the other way. */
  predicate HandledBy(kind: CallKind, side: Side) {
    kind.AsyncUpcall? <==> side.Client?
  }

  /** The arms of `switch_on` that call a handler. */
  predicate HasRequestCase(iface: Interface, side: Side, tag: Tag) {
    tag.Request? && tag.name in iface && HandledBy(iface[tag.name], side)
  }

  /** The messages with an arm in `awaitResponse` that saves them, and one in `delete_buffer` that calls their handler.
      The generator decides both arms by the same test. */
  predicate HasBufferCases(iface: Interface, side: Side, tag: Tag) {
    HasRequestCase(iface, side, tag) && !iface[tag.name].SyncCall?
  }

  /** What a message is for, given the interface. */
  datatype MessageKind = Verification | SyncRequest | AsyncRequest | UpcallRequest | Reply | Unknown

  function KindOf(iface: Interface, tag: Tag): MessageKind {
    match tag
    case Verify => Verification
    case Request(name) =>
      if name !in iface then Unknown
      else (
        match iface[name]
        case SyncCall => SyncRequest
        case AsyncCall => AsyncRequest
        case AsyncUpcall => UpcallRequest)
    case Response(name) => if name in iface && iface[name].SyncCall? then Reply else Unknown
  }

  /** Which arms exist for which messages: a side buffers exactly the asynchronous requests made to it. */
  lemma ArmsByKind(iface: Interface, tag: Tag)
    ensures HasBufferCases(iface, Client, tag) <==> KindOf(iface, tag).UpcallRequest?
    ensures HasBufferCases(iface, Server, tag) <==> KindOf(iface, tag).AsyncRequest?
    ensures HasRequestCase(iface, Client, tag) <==> KindOf(iface, tag).UpcallRequest?
    ensures HasRequestCase(iface, Server, tag) <==> KindOf(iface, tag).SyncRequest? || KindOf(iface, tag).AsyncRequest?
  {
  }

  // ----- the numeric tags -----

  /** The position of a name in the order in which the functions are enumerated. */
  function Position(names: seq<string>, name: string): (i: nat)
    requires name in names
    ensures i < |names| && names[i] == name
  {
    if names[0] == name then 0 else 1 + Position(names[1..], name)
  }

  /** The enumerator of a tag: `verify` is the base, then a request and a response for each function. */
  function TagCode(base: nat, names: seq<string>, tag: Tag): nat
    requires tag.Verify? || tag.name in names
  {
    match tag
    case Verify => base
    case Request(name) => base + 1 + 2 * Position(names, name)
    case Response(name) => base + 2 + 2 * Position(names, name)
  }

  function ErrorCode(base: nat, names: seq<string>): nat {
    base + 1 + 2 * |names|
  }

  /** The enumerators identify the tags, so a `switch` on the number is a `match` on the tag. */
  lemma TagCodeInjective(base: nat, names: seq<string>, a: Tag, b: Tag)
    requires a.Verify? || a.name in names
    requires b.Verify? || b.name in names
    ensures TagCode(base, names, a) == TagCode(base, names, b) <==> a == b
    ensures base <= TagCode(base, names, a) < ErrorCode(base, names)
  {
    if !a.Verify? && !b.Verify? && TagCode(base, names, a) == TagCode(base, names, b) {
      assert Position(names, a.name) == Position(names, b.name);
    }
  }

  /** The verification has the base; then each function has two consecutive numbers, in the order of enumeration; then
      comes the error tag. */
  lemma {:induction false} TagCodesInTurn(base: nat, names: seq<string>, i: nat)
    requires i < |names| && names[i] !in names[..i]
    ensures TagCode(base, names, Verify) == base && ErrorCode(base, names) == base + 2 * |names| + 1
    ensures TagCode(base, names, Request(names[i])) == base + 2 * i + 1
    ensures TagCode(base, names, Response(names[i])) == base + 2 * i + 2
  {
    PositionOf(names, i);
  }

  lemma {:induction false} PositionOf(names: seq<string>, i: nat)
    requires i < |names| && names[i] !in names[..i]
    ensures Position(names, names[i]) == i
  {
    if i > 0 {
      assert names[0] in names[..i] && names[..i][1..] == names[1..][..i - 1];
      PositionOf(names[1..], i - 1);
    }
  }
}
