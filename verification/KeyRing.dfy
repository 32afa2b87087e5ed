/** Reading a key ring: every armored block of a file, in order (xpki/gpg/keyring.go).
    Reading the entities of one block is a parameter. */
module KeyRing {
  import opened Wrappers
  import opened Crc24
  import opened Bytes
  import opened Armor
  import opened ArmorRoundTrip
  import Radix64

  /** "PGP PUBLIC KEY BLOCK" */
  const PUBLIC_KEY: Text := [80, 71, 80, 32, 80, 85, 66, 76, 73, 67, 32, 75, 69, 89, 32, 66, 76, 79, 67, 75]

  /** The entities of the public-key blocks, in order; None when one of them is unreadable. */
  function Entities<E>(blocks: seq<Block>, read: Text -> Option<seq<E>>): Option<seq<E>> {
    if blocks == [] then Some([])
    else if blocks[0].kind != PUBLIC_KEY then Entities(blocks[1..], read)
    else match read(blocks[0].bytes)
         case None => None
         case Some(el) =>
           match Entities(blocks[1..], read)
           case None => None
           case Some(more) => Some(el + more)
  }

  method ReadKeyRing<E>(file: Text, read: Text -> Option<seq<E>>) returns (r: Option<seq<E>>)
    ensures r == Entities(Blocks(file), read)
  {
    hide Decoded;
    var data := file;
    var keyring: seq<E> := [];
    AppendAssociates([], [], Entities(Blocks(file), read));
    while true
      invariant Entities(Blocks(file), read)
                == match Entities(Blocks(data), read)
                   case None => None
                   case Some(more) => Some(keyring + more)
      decreases |data|
    {
      var (block, rest) := Decoded(data);
      if block.None? {
        assert keyring + [] == keyring;
        break;
      }
      assert Blocks(data)[1..] == Blocks(rest);
      if block.value.kind == PUBLIC_KEY {
        var el := read(block.value.bytes);
        if el.None? {
          return None;
        }
        AppendAssociates(keyring, el.value, Entities(Blocks(rest), read));
        keyring := keyring + el.value;
      }
      if |rest| == 0 {
        NoBlocks();
        assert keyring + [] == keyring;
        break;
      }
      data := rest;
    }
    return Some(keyring);
  }

  lemma AppendAssociates<E>(a: seq<E>, b: seq<E>, c: Option<seq<E>>)
    ensures c.Some? ==> a + (b + c.value) == a + b + c.value && [] + c.value == c.value
  {}

  // ----- A file of armored blocks -----

  datatype Item = Item(kind: Text, headers: seq<Header>, bytes: Text, body: Text, crlf: bool)

  predicate GoodItem(i: Item) {
    && NL !in i.kind && (forall h | h in i.headers :: Plain(h))
    && Compact(i.body) == Radix64.Encode(i.bytes)
  }

  function File(items: seq<Item>): Text {
    if items == [] then []
    else var i := items[0];
         Armored(i.kind, i.headers, i.bytes, i.body, Eol(i.crlf)) + File(items[1..])
  }

  function BlocksOf(items: seq<Item>): seq<Block> {
    if items == [] then []
    else var i := items[0];
         [Block(i.kind, HeaderMap(i.headers, map[]), i.bytes, Checksum(i.bytes))] + BlocksOf(items[1..])
  }

  /** A file of armored blocks, with any types, headers, layouts and line ends, is read back
      block by block. */
  lemma {:induction false} FileRoundTrip(items: seq<Item>)
    requires forall i | i in items :: GoodItem(i)
    ensures Blocks(File(items)) == BlocksOf(items)
  {
    hide Decoded, Armored, Checksum, HeaderMap, Eol;
    if items == [] {
      NoBlocks();
    } else {
      var i := items[0];
      assert GoodItem(i);
      RoundTrip(i.kind, i.headers, i.bytes, i.body, i.crlf, File(items[1..]));
      FileRoundTrip(items[1..]);
    }
  }

  /** Reading a file of public-key blocks gives the entities of all of them, in file order. */
  lemma KeysInOrder<E>(items: seq<Item>, read: Text -> Option<seq<E>>, keys: seq<seq<E>>)
    requires forall i | i in items :: GoodItem(i) && i.kind == PUBLIC_KEY
    requires |keys| == |items| && forall k | 0 <= k < |keys| :: read(items[k].bytes) == Some(keys[k])
    ensures Entities(Blocks(File(items)), read) == Some(Concat(keys))
  {
    FileRoundTrip(items);
    KeysOf(items, read, keys);
  }

  function Concat<E>(lists: seq<seq<E>>): seq<E> {
    if lists == [] then [] else lists[0] + Concat(lists[1..])
  }

  lemma {:induction false} KeysOf<E>(items: seq<Item>, read: Text -> Option<seq<E>>, keys: seq<seq<E>>)
    requires forall i | i in items :: i.kind == PUBLIC_KEY
    requires |keys| == |items| && forall k | 0 <= k < |keys| :: read(items[k].bytes) == Some(keys[k])
    ensures Entities(BlocksOf(items), read) == Some(Concat(keys))
  {
    hide Checksum, HeaderMap;
    if items != [] {
      KeysOf(items[1..], read, keys[1..]);
      assert BlocksOf(items)[1..] == BlocksOf(items[1..]);
      assert items[0] in items;
    }
  }

  lemma KindIsPublicKey()
    ensures KeyBlockKind() == PUBLIC_KEY
  {}

  /** A key block as gpg writes it is a public-key block: its entities are read. */
  lemma KeyFileIsRead<E>(read: Text -> Option<seq<E>>)
    ensures Entities(Blocks(KeyBlockFile()), read) == read([])
  {
    hide Decoded, KeyBlockFile, KeyBlockKind;
    EmptyKeyBlock([]);
    KindIsPublicKey();
    NoBlocks();
    assert KeyBlockFile() + [] == KeyBlockFile();
    var b := Block(KeyBlockKind(), map[], [], 0xb704ce);
    assert Blocks(KeyBlockFile()) == [b];
    if read([]).Some? {
      assert read([]).value + [] == read([]).value;
    }
  }
}
