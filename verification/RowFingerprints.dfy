/** `RowFingerprints`: did the content shown at this position change since the last
    frame? Keys are (pane, row); entries live exactly one frame past their last
    note, by comparing frame stamps. */
module RowFps {
  import opened Bytes

  type Key = (nat, nat)

  datatype Entry = Entry(hash: u64, lastSeen: u64)

  datatype Book = Book(rows: map<Key, Entry>, frame: u64)

  datatype Note = Note(key: Key, hash: u64)

  function BeginFrame(b: Book): Book {
    b.(frame := (b.frame + 1) % TWO_64)
  }

  function Put(b: Book, n: Note): Book {
    b.(rows := b.rows[n.key := Entry(n.hash, b.frame)])
  }

  predicate Changed(b: Book, n: Note) {
    n.key in b.rows ==> b.rows[n.key].hash != n.hash
  }

  function Puts(b: Book, ns: seq<Note>): (b': Book)
    ensures b'.frame == b.frame
  {
    if ns == [] then b else Put(Puts(b, ns[..|ns| - 1]), ns[|ns| - 1])
  }

  function EndFrame(b: Book): Book {
    b.(rows := map k | k in b.rows && b.rows[k].lastSeen == b.frame :: b.rows[k])
  }

  /** A whole frame. */
  function Frame(b: Book, ns: seq<Note>): Book {
    EndFrame(Puts(BeginFrame(b), ns))
  }

  function Frames(b: Book, fs: seq<seq<Note>>): Book {
    if fs == [] then b else Frame(Frames(b, fs[..|fs| - 1]), fs[|fs| - 1])
  }

  const NEW: Book := Book(map[], 0)

  /** The hash a list of notes leaves for a key. */
  function Last(ns: seq<Note>, k: Key): Option<u64> {
    if ns == [] then None
    else
      var n := ns[|ns| - 1];
      if n.key == k then Some(n.hash) else Last(ns[..|ns| - 1], k)
  }

  function At(b: Book, k: Key): Option<u64> {
    if k in b.rows then Some(b.rows[k].hash) else None
  }

  /** Between frames every entry carries the current stamp. */
  ghost predicate Settled(b: Book) {
    forall k :: k in b.rows ==> b.rows[k].lastSeen == b.frame
  }

  lemma {:induction false} PutsAnswers(b: Book, ns: seq<Note>, k: Key)
    ensures At(Puts(b, ns), k) == if Last(ns, k).Some? then Last(ns, k) else At(b, k)
    ensures k in Puts(b, ns).rows && (Last(ns, k).Some? || b.rows[k].lastSeen == b.frame)
            ==> Puts(b, ns).rows[k].lastSeen == b.frame
    ensures k in Puts(b, ns).rows && Last(ns, k).None? ==> k in b.rows && Puts(b, ns).rows[k] == b.rows[k]
    decreases |ns|
  {
    if ns != [] {
      PutsAnswers(b, ns[..|ns| - 1], k);
    }
  }

  /** A frame leaves exactly the keys it noted, each with its last hash, even when
      the frame counter wraps to zero. */
  lemma FrameKeepsItsNotes(b: Book, ns: seq<Note>)
    requires Settled(b)
    ensures Settled(Frame(b, ns))
    ensures forall k :: At(Frame(b, ns), k) == Last(ns, k)
  {
    var c := BeginFrame(b);
    assert c.frame != b.frame;
    forall k ensures At(Frame(b, ns), k) == Last(ns, k) {
      PutsAnswers(c, ns, k);
    }
    forall k | k in Frame(b, ns).rows ensures Frame(b, ns).rows[k].lastSeen == Frame(b, ns).frame {
      PutsAnswers(c, ns, k);
    }
  }

  /** After any run of frames, the first note of a key in the next frame says
      "unchanged" exactly when the previous frame's last note of that key had the
      same hash. */
  lemma UnchangedIffSameAsLastFrame(fs: seq<seq<Note>>, prev: seq<Note>, ns: seq<Note>, i: nat)
    requires i < |ns| && Last(ns[..i], ns[i].key).None?
    ensures var now := Puts(BeginFrame(Frames(NEW, fs + [prev])), ns[..i]);
            !Changed(now, ns[i]) <==> Last(prev, ns[i].key) == Some(ns[i].hash)
  {
    assert (fs + [prev])[..|fs|] == fs;
    FrameKeepsItsNotes(Frames(NEW, fs), prev);
    PutsAnswers(BeginFrame(Frames(NEW, fs + [prev])), ns[..i], ns[i].key);
  }

  class RowFingerprints {
    var rows: map<Key, Entry>
    var frame: u64

    ghost function View(): Book
      reads this
    {
      Book(rows, frame)
    }

    constructor ()
      ensures View() == NEW
    {
      rows, frame := map[], 0;
    }

    method Begin()
      modifies this
      ensures View() == BeginFrame(old(View()))
    {
      frame := (frame + 1) % TWO_64;
    }

    method NoteRow(key: Key, hash: u64) returns (changed: bool)
      modifies this
      ensures View() == Put(old(View()), Note(key, hash))
      ensures changed == Changed(old(View()), Note(key, hash))
    {
      if key in rows {
        changed := rows[key].hash != hash;
        rows := rows[key := Entry(hash, frame)];
      } else {
        rows := rows[key := Entry(hash, frame)];
        changed := true;
      }
    }

    method End()
      modifies this
      ensures View() == EndFrame(old(View()))
    {
      rows := map k | k in rows && rows[k].lastSeen == frame :: rows[k];
    }
  }
}
