/**
 * A user's notes on one topic (src/components/UserNotes.tsx): the notes
 * table, its listing, and the editor dialog's state across create, edit and
 * delete.
 */
module UserNotes {
  import opened Wrappers
  import opened Schema
  import opened Replies

  // ---------------------------------------------------------------------------
  // String.prototype.trim and the first-underscore display rule
  // ---------------------------------------------------------------------------

  /**
   * The characters `trim` removes: WhiteSpace and LineTerminator of
   * ECMAScript (section 12.2 and 12.3 of ECMA-262), that is TAB, VT, FF,
   * SP, NBSP, ZWNBSP, the Space_Separator characters, LF, CR, LS and PS.
   */
  predicate IsJsSpace(c: char) {
    var n := c as int;
    n == 0x09 || n == 0x0B || n == 0x0C || n == 0x20 || n == 0xA0 || n == 0xFEFF
    || n == 0x1680 || (0x2000 <= n <= 0x200A) || n == 0x202F || n == 0x205F || n == 0x3000
    || n == 0x0A || n == 0x0D || n == 0x2028 || n == 0x2029
  }

  predicate AllSpace(s: string) {
    forall k :: 0 <= k < |s| ==> IsJsSpace(s[k])
  }

  /** The end of the leading whitespace of `s`. */
  function LeadEnd(s: string): (i: nat)
    ensures i <= |s|
    ensures forall k :: 0 <= k < i ==> IsJsSpace(s[k])
    ensures i < |s| ==> !IsJsSpace(s[i])
  {
    if s == [] || !IsJsSpace(s[0]) then 0
    else
      var i := 1 + LeadEnd(s[1..]);
      assert forall k :: 1 <= k < i ==> s[k] == s[1..][k - 1];
      i
  }

  /** The start of the trailing whitespace of `s` after position `lo`. */
  function TrailStart(s: string, lo: nat): (j: nat)
    requires lo <= |s|
    ensures lo <= j <= |s|
    ensures forall k :: j <= k < |s| ==> IsJsSpace(s[k])
    ensures j > lo ==> !IsJsSpace(s[j - 1])
  {
    if |s| == lo || !IsJsSpace(s[|s| - 1]) then |s|
    else
      var j := TrailStart(s[..|s| - 1], lo);
      assert forall k :: j <= k < |s| - 1 ==> s[k] == s[..|s| - 1][k];
      j
  }

  /** `s.trim()`: `s` without its leading and trailing whitespace. */
  function Trim(s: string): (r: string)
    ensures |r| <= |s|
    ensures r == [] || (!IsJsSpace(r[0]) && !IsJsSpace(r[|r| - 1]))
  {
    var i := LeadEnd(s);
    s[i..TrailStart(s, i)]
  }

  lemma AllSpacePrefix(s: string, i: nat)
    requires i <= |s| && forall k :: 0 <= k < i ==> IsJsSpace(s[k])
    ensures AllSpace(s[..i])
  {
    forall k | 0 <= k < i ensures IsJsSpace(s[..i][k]) {
      assert s[..i][k] == s[k];
    }
  }

  lemma AllSpaceSuffix(s: string, j: nat)
    requires j <= |s| && forall k :: j <= k < |s| ==> IsJsSpace(s[k])
    ensures AllSpace(s[j..])
  {
    forall k | 0 <= k < |s| - j ensures IsJsSpace(s[j..][k]) {
      assert s[j..][k] == s[j + k];
    }
  }

  /** What `Trim` removes is whitespace, at both ends, and the rest is kept in order. */
  lemma TrimIsSlice(s: string)
    ensures LeadEnd(s) <= TrailStart(s, LeadEnd(s)) <= |s|
    ensures Trim(s) == s[LeadEnd(s)..TrailStart(s, LeadEnd(s))]
    ensures AllSpace(s[..LeadEnd(s)]) && AllSpace(s[TrailStart(s, LeadEnd(s))..])
  {
    AllSpacePrefix(s, LeadEnd(s));
    AllSpaceSuffix(s, TrailStart(s, LeadEnd(s)));
  }

  /** A field trims to nothing exactly when it is all whitespace. */
  lemma TrimEmptyIffBlank(s: string)
    ensures Trim(s) == [] <==> AllSpace(s)
  {
    var i := LeadEnd(s);
    var j := TrailStart(s, i);
    assert |Trim(s)| == j - i;
    assert AllSpace(s) ==> i == |s|;
  }

  /** Trimming twice is trimming once. */
  lemma TrimIdempotent(s: string)
    ensures Trim(Trim(s)) == Trim(s)
  {
    var t := Trim(s);
    assert LeadEnd(t) == 0;
    assert t == [] || TrailStart(t, 0) == |t|;
    assert t[0..|t|] == t;
  }

  /** `topic.replace('_', ' ')` with a string pattern. */
  function DisplayTopic(topic: string): (r: string)
    ensures |r| == |topic|
  {
    if topic == [] then []
    else if topic[0] == '_' then " " + topic[1..]
    else [topic[0]] + DisplayTopic(topic[1..])
  }

  /** A topic without an underscore is shown as it is. */
  lemma {:induction false} DisplayTopicWithoutUnderscore(topic: string)
    requires '_' !in topic
    ensures DisplayTopic(topic) == topic
  {
    if topic != [] {
      assert topic == [topic[0]] + topic[1..];
      DisplayTopicWithoutUnderscore(topic[1..]);
    }
  }

  /** Only the first underscore becomes a space: whatever follows it, later underscores included, is kept. */
  lemma {:induction false} DisplayTopicReplacesFirst(before: string, after: string)
    requires '_' !in before
    ensures DisplayTopic(before + "_" + after) == before + " " + after
  {
    var t := before + "_" + after;
    if before == [] {
      assert t == "_" + after;
    } else {
      assert t[1..] == before[1..] + "_" + after;
      assert before == [before[0]] + before[1..];
      DisplayTopicReplacesFirst(before[1..], after);
    }
  }

  /** A second underscore stays. */
  lemma DisplayTopicSecondUnderscoreStays()
    ensures DisplayTopic("a_b_c") == "a b_c"
  {
    DisplayTopicReplacesFirst("a", "b_c");
    assert "a" + "_" + "b_c" == "a_b_c";
  }

  // ---------------------------------------------------------------------------
  // The notes table and its listing (lines 46-51, 68-74, 84-91, 127-130)
  // ---------------------------------------------------------------------------

  /** The rows of `topic` belonging to `user`, in table order. */
  function NotesOf(store: seq<UserNoteRow>, topic: string, user: Id): (r: seq<UserNoteRow>)
    ensures |r| <= |store|
    ensures forall n :: n in r <==> n in store && n.topic == topic && n.userId == user
  {
    if store == [] then []
    else
      assert store == [store[0]] + store[1..];
      var rest := NotesOf(store[1..], topic, user);
      if store[0].topic == topic && store[0].userId == user then [store[0]] + rest else rest
  }

  predicate NewestFirst(s: seq<UserNoteRow>) {
    forall i, j :: 0 <= i < j < |s| ==> s[i].updatedAt >= s[j].updatedAt
  }

  /** Putting a row no older than the head in front keeps the order. */
  lemma ConsNewestFirst(h: UserNoteRow, t: seq<UserNoteRow>)
    requires NewestFirst(t)
    requires t != [] ==> h.updatedAt >= t[0].updatedAt
    ensures NewestFirst([h] + t)
  {
    var r := [h] + t;
    forall i, j | 0 <= i < j < |r| ensures r[i].updatedAt >= r[j].updatedAt {
      assert r[j] == t[j - 1];
      if i > 0 {
        assert r[i] == t[i - 1];
      }
    }
  }

  function InsertByUpdated(x: UserNoteRow, s: seq<UserNoteRow>): (r: seq<UserNoteRow>)
    requires NewestFirst(s)
    ensures NewestFirst(r)
    ensures multiset(r) == multiset(s) + multiset{x}
    ensures r[0] == x || (s != [] && r[0] == s[0])
  {
    if s == [] then [x]
    else if x.updatedAt >= s[0].updatedAt then
      ConsNewestFirst(x, s);
      [x] + s
    else
      assert s == [s[0]] + s[1..];
      var rest := InsertByUpdated(x, s[1..]);
      ConsNewestFirst(s[0], rest);
      [s[0]] + rest
  }

  /** `.order('updated_at', { ascending: false })`: newest first, same rows. */
  function SortNewestFirst(s: seq<UserNoteRow>): (r: seq<UserNoteRow>)
    ensures NewestFirst(r)
    ensures multiset(r) == multiset(s)
  {
    if s == [] then []
    else
      assert s == [s[0]] + s[1..];
      InsertByUpdated(s[0], SortNewestFirst(s[1..]))
  }

  /** The read at lines 46-51. */
  function Listing(store: seq<UserNoteRow>, topic: string, user: Id): (r: seq<UserNoteRow>)
    ensures NewestFirst(r)
    ensures multiset(r) == multiset(NotesOf(store, topic, user))
  {
    SortNewestFirst(NotesOf(store, topic, user))
  }

  /** The listing holds exactly this user's notes on this topic, each as often as the table does. */
  lemma ListingIsTheTopicsNotes(store: seq<UserNoteRow>, topic: string, user: Id, n: UserNoteRow)
    ensures n in Listing(store, topic, user) <==> n in store && n.topic == topic && n.userId == user
    ensures |Listing(store, topic, user)| == |NotesOf(store, topic, user)|
  {
    var l := Listing(store, topic, user);
    assert n in l <==> n in multiset(l);
    assert |l| == |multiset(l)|;
  }

  /** Lines 68-74: the rows with that id get the new title and content; nothing else changes. */
  function UpdatedNotes(store: seq<UserNoteRow>, id: Id, title: string, content: string): (r: seq<UserNoteRow>)
    ensures |r| == |store|
    ensures forall i :: 0 <= i < |r| && store[i].id != id ==> r[i] == store[i]
    ensures forall i :: 0 <= i < |r| && store[i].id == id ==> r[i] == store[i].(title := title, content := content)
  {
    seq(|store|, i requires 0 <= i < |store| =>
      if store[i].id == id then store[i].(title := title, content := content) else store[i])
  }

  /** Lines 127-130: the rows with that id are removed; the others keep their order. */
  function DeletedNotes(store: seq<UserNoteRow>, id: Id): (r: seq<UserNoteRow>)
    ensures |r| <= |store|
    ensures forall n :: n in r <==> n in store && n.id != id
  {
    if store == [] then []
    else
      assert store == [store[0]] + store[1..];
      var rest := DeletedNotes(store[1..], id);
      if store[0].id == id then rest else [store[0]] + rest
  }

  /** A new row (lines 84-91); the table supplies the id and both timestamps. */
  function NewNote(title: string, content: string, topic: string, user: Id, freshId: Id, now: Timestamp): UserNoteRow {
    UserNoteRow(Trim(content), now, freshId, Trim(title), topic, now, user)
  }

  predicate HasId(store: seq<UserNoteRow>, id: Id) {
    exists n :: n in store && n.id == id
  }

  /**
   * The table after a save, or `None` when the write fails: the request is
   * refused or throws, or a new row's id is already taken.
   */
  function SavedStore(store: seq<UserNoteRow>, editing: Option<UserNoteRow>, title: string, content: string,
                      topic: string, user: Id, freshId: Id, now: Timestamp, write: Outcome): (r: Option<seq<UserNoteRow>>)
    ensures write != Answered ==> r.None?
    ensures write == Answered && editing.Some? ==> r == Some(UpdatedNotes(store, editing.value.id, Trim(title), Trim(content)))
    ensures write == Answered && editing.None? ==>
      (r.Some? <==> !HasId(store, freshId)) && (r.Some? ==> r.value == store + [NewNote(title, content, topic, user, freshId, now)])
  {
    if write != Answered then None
    else if editing.Some? then Some(UpdatedNotes(store, editing.value.id, Trim(title), Trim(content)))
    else if HasId(store, freshId) then None
    else Some(store + [NewNote(title, content, topic, user, freshId, now)])
  }

  /** A created note shows up in the listing of its topic, trimmed and marked as the user's. */
  lemma CreatedNoteListed(store: seq<UserNoteRow>, title: string, content: string, topic: string, user: Id,
                          freshId: Id, now: Timestamp)
    ensures var n := NewNote(title, content, topic, user, freshId, now);
      n in Listing(store + [n], topic, user) && n.title == Trim(title) && n.content == Trim(content)
  {
    var n := NewNote(title, content, topic, user, freshId, now);
    ListingIsTheTopicsNotes(store + [n], topic, user, n);
  }

  /** After a delete, no listed note has that id, and every other note is still listed. */
  lemma DeletedNoteUnlisted(store: seq<UserNoteRow>, id: Id, topic: string, user: Id, n: UserNoteRow)
    ensures n in Listing(DeletedNotes(store, id), topic, user) <==> n in Listing(store, topic, user) && n.id != id
  {
    ListingIsTheTopicsNotes(DeletedNotes(store, id), topic, user, n);
    ListingIsTheTopicsNotes(store, topic, user, n);
  }

  /** An edit keeps every row's id, topic, owner and timestamps. */
  lemma EditKeepsIdentity(store: seq<UserNoteRow>, id: Id, title: string, content: string, i: nat)
    requires i < |store|
    ensures var r := UpdatedNotes(store, id, title, content)[i];
      r.id == store[i].id && r.topic == store[i].topic && r.userId == store[i].userId
      && r.createdAt == store[i].createdAt && r.updatedAt == store[i].updatedAt
  {
  }

  /**
   * The notes list after a read of the listing: an answered read shows the
   * listing, a refused one shows nothing (`data || []`), a thrown one keeps
   * what was shown.
   */
  function AfterRead(shown: seq<UserNoteRow>, store: seq<UserNoteRow>, topic: string, user: Id, read: Outcome): (r: seq<UserNoteRow>)
    ensures read == Answered ==> r == Listing(store, topic, user)
    ensures read == Refused ==> r == []
    ensures read == Threw ==> r == shown
  {
    match read
    case Answered => Listing(store, topic, user)
    case Refused => []
    case Threw => shown
  }

  /** The save button is disabled until both fields have text, and while saving (line 210). */
  predicate SaveDisabled(title: string, content: string, saving: bool) {
    Trim(title) == [] || Trim(content) == [] || saving
  }

  /** Line 62: saving needs a user and text in both fields. */
  predicate SaveAllowed(user: Option<Id>, title: string, content: string) {
    user.Some? && Trim(title) != [] && Trim(content) != []
  }

  /** An enabled button means the guard passes for a signed-in user; blank fields block both. */
  lemma ButtonMatchesGuard(user: Option<Id>, title: string, content: string, saving: bool)
    ensures user.Some? && !SaveDisabled(title, content, saving) ==> SaveAllowed(user, title, content)
    ensures AllSpace(title) ==> SaveDisabled(title, content, saving) && !SaveAllowed(user, title, content)
  {
    TrimEmptyIffBlank(title);
  }

  /** The notes panel's state, with the notes table it reads and writes. */
  class NotesPanel {
    const topic: string
    var store: seq<UserNoteRow>
    var notes: seq<UserNoteRow>
    var loading: bool
    var isDialogOpen: bool
    var editingNote: Option<UserNoteRow>
    var title: string
    var content: string
    var saving: bool

    constructor (topic: string, store: seq<UserNoteRow>)
      ensures this.topic == topic && this.store == store
      ensures notes == [] && loading && !isDialogOpen && editingNote.None?
      ensures title == "" && content == "" && !saving
    {
      this.topic := topic;
      this.store := store;
      notes := [];
      loading := true;
      isDialogOpen := false;
      editingNote := None;
      title := "";
      content := "";
      saving := false;
    }

    /**
     * `fetchNotes` (lines 42-59). Without a user it returns before the
     * `try`, so loading does not end. A refused read lists nothing; a thrown
     * one keeps the list.
     */
    method FetchNotes(user: Option<Id>, read: Outcome)
      modifies this
      ensures user.None? ==> notes == old(notes) && loading == old(loading)
      ensures user.Some? ==> !loading && notes == AfterRead(old(notes), store, topic, user.value, read)
      ensures store == old(store) && isDialogOpen == old(isDialogOpen) && editingNote == old(editingNote)
      ensures title == old(title) && content == old(content) && saving == old(saving)
    {
      if user.None? {
        return;
      }
      notes := AfterRead(notes, store, topic, user.value, read);
      loading := false;
    }

    /** The title field's `onChange` (line 191). */
    method SetTitle(value: string)
      modifies this
      ensures title == value
      ensures store == old(store) && notes == old(notes) && loading == old(loading) && isDialogOpen == old(isDialogOpen)
      ensures editingNote == old(editingNote) && content == old(content) && saving == old(saving)
    {
      title := value;
    }

    /** The content field's `onChange` (line 200). */
    method SetContent(value: string)
      modifies this
      ensures content == value
      ensures store == old(store) && notes == old(notes) && loading == old(loading) && isDialogOpen == old(isDialogOpen)
      ensures editingNote == old(editingNote) && title == old(title) && saving == old(saving)
    {
      content := value;
    }

    /**
     * `handleSaveNote` (lines 61-116): an update of the note being edited
     * or an insert of a new one, both with trimmed text. On success the
     * dialog closes and resets, and the notes are read again (`refetch`).
     */
    method HandleSaveNote(user: Option<Id>, freshId: Id, now: Timestamp, write: Outcome, refetch: Outcome)
      modifies this
      ensures !SaveAllowed(user, old(title), old(content)) ==>
        store == old(store) && notes == old(notes) && loading == old(loading) && isDialogOpen == old(isDialogOpen)
        && editingNote == old(editingNote) && title == old(title) && content == old(content) && saving == old(saving)
      ensures SaveAllowed(user, old(title), old(content)) ==> !saving
      ensures SaveAllowed(user, old(title), old(content)) ==>
        var saved := SavedStore(old(store), old(editingNote), old(title), old(content), topic, user.value, freshId, now, write);
        (saved.None? ==>
          store == old(store) && notes == old(notes) && loading == old(loading) && isDialogOpen == old(isDialogOpen)
          && editingNote == old(editingNote) && title == old(title) && content == old(content))
        && (saved.Some? ==>
          store == saved.value && !isDialogOpen && editingNote.None? && title == "" && content == "" && !loading
          && notes == AfterRead(old(notes), store, topic, user.value, refetch))
    {
      if !SaveAllowed(user, title, content) {
        return;
      }
      var saved := SavedStore(store, editingNote, title, content, topic, user.value, freshId, now, write);
      saving := true;
      if saved.Some? {
        store := saved.value;
        isDialogOpen := false;
        editingNote := None;
        title := "";
        content := "";
        FetchNotes(user, refetch);
      }
      saving := false;
    }

    /** `handleEditNote` (lines 118-123): the dialog opens on that note's text. */
    method HandleEditNote(note: UserNoteRow)
      modifies this
      ensures editingNote == Some(note) && title == note.title && content == note.content && isDialogOpen
      ensures store == old(store) && notes == old(notes) && loading == old(loading) && saving == old(saving)
    {
      editingNote := Some(note);
      title := note.title;
      content := note.content;
      isDialogOpen := true;
    }

    /**
     * `handleDeleteNote` (lines 125-147): an answered delete removes the
     * rows with that id and reads the notes again, which without a user
     * returns at once (line 43); nothing else changes.
     */
    method HandleDeleteNote(user: Option<Id>, noteId: Id, write: Outcome, refetch: Outcome)
      modifies this
      ensures store == if write == Answered then DeletedNotes(old(store), noteId) else old(store)
      ensures write != Answered || user.None? ==> notes == old(notes) && loading == old(loading)
      ensures write == Answered && user.Some? ==> !loading && notes == AfterRead(old(notes), store, topic, user.value, refetch)
      ensures isDialogOpen == old(isDialogOpen) && editingNote == old(editingNote)
      ensures title == old(title) && content == old(content) && saving == old(saving)
    {
      if write == Answered {
        store := DeletedNotes(store, noteId);
        FetchNotes(user, refetch);
      }
    }

    /** `openNewNoteDialog` (lines 149-154): an empty dialog for a new note. */
    method OpenNewNoteDialog()
      modifies this
      ensures editingNote.None? && title == "" && content == "" && isDialogOpen
      ensures store == old(store) && notes == old(notes) && loading == old(loading) && saving == old(saving)
    {
      editingNote := None;
      title := "";
      content := "";
      isDialogOpen := true;
    }
  }
}
