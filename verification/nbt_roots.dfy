/**
  The two forms of a document: with a root name, as it travels inside a frame, and
  without one, as the world keeps it.
 */
module NbtRoots {
  import opened Bytes
  import opened NbtTree

  /** The document without its root name, if it is a compound and the name is whole. */
  function UnnamedRoot(named: seq<byte>): Option<seq<byte>> {
    if |named| < 3 || named[0] != TAG_COMPOUND then None
    else
      var len := FromBigEndian(named[1..3]);
      if 3 + len > |named| then None else Some([TAG_COMPOUND] + named[3 + len..])
  }

  /** The document with an empty root name put in. */
  function NamedRoot(unnamed: seq<byte>): Option<seq<byte>> {
    if unnamed == [] || unnamed[0] != TAG_COMPOUND then None
    else Some([TAG_COMPOUND] + BigEndian(2, 0) + unnamed[1..])
  }

  /** Naming the root and taking the name out again gives the document back, and every
      compound, and nothing else, can be named. */
  lemma NamingIsUndone(unnamed: seq<byte>)
    ensures NamedRoot(unnamed).Some? <==> unnamed != [] && unnamed[0] == TAG_COMPOUND
    ensures NamedRoot(unnamed).Some? ==> UnnamedRoot(NamedRoot(unnamed).value) == Some(unnamed)
  {
    hide BigEndian, FromBigEndian, Pow256;
    if NamedRoot(unnamed).Some? {
      var named := NamedRoot(unnamed).value;
      assert named[1..3] == BigEndian(2, 0);
      Pow256Words();
      BigEndianInverse(2, 0);
      assert unnamed == [TAG_COMPOUND] + unnamed[1..];
      assert named[3..] == unnamed[1..];
    }
  }

  /** A name of any length is taken out whole. */
  lemma AnyNameIsTakenOut(name: seq<byte>, payload: seq<byte>)
    requires |name| < TWO16
    ensures UnnamedRoot([TAG_COMPOUND] + BigEndian(2, |name|) + name + payload) == Some([TAG_COMPOUND] + payload)
  {
    hide BigEndian, FromBigEndian, Pow256;
    NamedParts(TAG_COMPOUND, BigEndian(2, |name|), name, payload);
    Pow256Words();
    BigEndianInverse(2, |name|);
  }

  lemma NamedParts(tag: byte, len: seq<byte>, name: seq<byte>, payload: seq<byte>)
    requires |len| == 2
    ensures var named := [tag] + len + name + payload;
      |named| == 3 + |name| + |payload| && named[0] == tag && named[1..3] == len && named[3 + |name|..] == payload
  {
  }
}
