/**
 * The inotify event as trigger.c sees it, the event filter (should_trigger)
 * and the naming of event kinds (mask2str).
 */
module Events {
  import opened Wrappers
  import Glob

  /**
   * One inotify record: its event mask and, when the record's name length is
   * not zero, the name of the entry in the watched directory it is about.
   */
  datatype Event = Event(mask: bv32, name: Option<string>)

  // Event bits of <sys/inotify.h>.
  const IN_ACCESS: bv32 := 0x0000_0001
  const IN_MODIFY: bv32 := 0x0000_0002
  const IN_ATTRIB: bv32 := 0x0000_0004
  const IN_CLOSE_WRITE: bv32 := 0x0000_0008
  const IN_CLOSE_NOWRITE: bv32 := 0x0000_0010
  const IN_OPEN: bv32 := 0x0000_0020
  const IN_MOVED_FROM: bv32 := 0x0000_0040
  const IN_MOVED_TO: bv32 := 0x0000_0080
  const IN_CREATE: bv32 := 0x0000_0100
  const IN_DELETE: bv32 := 0x0000_0200
  const IN_DELETE_SELF: bv32 := 0x0000_0400
  const IN_MOVE_SELF: bv32 := 0x0000_0800

  /** The bits mask2str knows a name for. */
  const KNOWN_EVENTS: bv32 := 0x0000_0FFF

  /**
   * Whether an event may trigger the command: it must carry a name, and when
   * a pattern is configured the name must match it in FNM_PATHNAME mode.
   */
  function ShouldTrigger(ev: Event, pattern: Option<string>): (r: bool)
    ensures ev.name.None? ==> !r
    ensures ev.name.Some? && pattern.None? ==> r
  {
    match ev.name
    case None => false
    case Some(name) => pattern.None? || Glob.FnMatch(pattern.value, name)
  }

  /**
   * With a pattern, a named event triggers exactly when its name is the
   * concatenation of pieces the pattern's elements cover (FNM_PATHNAME).
   */
  lemma ShouldTriggerIsGlob(ev: Event, pattern: string)
    requires ev.name.Some?
    ensures ShouldTrigger(ev, Some(pattern)) <==> Glob.Matches(pattern, ev.name.value)
  {
    Glob.FnMatchIsGlob(pattern, ev.name.value);
  }

  /** With pattern `*.c`, `main.c` triggers and `src/main.c` does not. */
  lemma StarDotCTriggers(mask: bv32)
    ensures ShouldTrigger(Event(mask, Some("main.c")), Some("*.c"))
    ensures !ShouldTrigger(Event(mask, Some("src/main.c")), Some("*.c"))
  {
    Glob.StarDotC();
  }

  /** The event kinds mask2str names, one per known bit. */
  datatype EventKind =
    | Access | Attrib | CloseWrite | CloseNoWrite | Create | Delete
    | DeleteSelf | Modify | MoveSelf | MovedFrom | MovedTo | Open

  function Bit(k: EventKind): bv32
  {
    match k
    case Access => IN_ACCESS
    case Attrib => IN_ATTRIB
    case CloseWrite => IN_CLOSE_WRITE
    case CloseNoWrite => IN_CLOSE_NOWRITE
    case Create => IN_CREATE
    case Delete => IN_DELETE
    case DeleteSelf => IN_DELETE_SELF
    case Modify => IN_MODIFY
    case MoveSelf => IN_MOVE_SELF
    case MovedFrom => IN_MOVED_FROM
    case MovedTo => IN_MOVED_TO
    case Open => IN_OPEN
  }

  /** The position of a kind in the order mask2str tests the bits. */
  function Rank(k: EventKind): nat
  {
    match k
    case Access => 0
    case Attrib => 1
    case CloseWrite => 2
    case CloseNoWrite => 3
    case Create => 4
    case Delete => 5
    case DeleteSelf => 6
    case Modify => 7
    case MoveSelf => 8
    case MovedFrom => 9
    case MovedTo => 10
    case Open => 11
  }

  function Label(k: EventKind): string
  {
    match k
    case Access => "IN_ACCESS"
    case Attrib => "IN_ATTRIB"
    case CloseWrite => "IN_CLOSE_WRITE"
    case CloseNoWrite => "IN_CLOSE_NOWRITE"
    case Create => "IN_CREATE"
    case Delete => "IN_DELETE"
    case DeleteSelf => "IN_DELETE_SELF"
    case Modify => "IN_MODIFY"
    case MoveSelf => "IN_MOVE_SELF"
    case MovedFrom => "IN_MOVED_FROM"
    case MovedTo => "IN_MOVED_TO"
    case Open => "IN_OPEN"
  }

  /**
   * The kind mask2str reports: the first set bit in its fixed order, or None
   * when no known bit is set (where the C code logs, asserts and has no
   * value to return).
   */
  function MaskToKind(mask: bv32): (r: Option<EventKind>)
    ensures r.None? <==> mask & KNOWN_EVENTS == 0
    ensures r.Some? ==> mask & Bit(r.value) != 0
    ensures r.Some? ==> forall k :: Rank(k) < Rank(r.value) ==> mask & Bit(k) == 0
  {
    if IN_ACCESS & mask != 0 then Some(Access)
    else if IN_ATTRIB & mask != 0 then Some(Attrib)
    else if IN_CLOSE_WRITE & mask != 0 then Some(CloseWrite)
    else if IN_CLOSE_NOWRITE & mask != 0 then Some(CloseNoWrite)
    else if IN_CREATE & mask != 0 then Some(Create)
    else if IN_DELETE & mask != 0 then Some(Delete)
    else if IN_DELETE_SELF & mask != 0 then Some(DeleteSelf)
    else if IN_MODIFY & mask != 0 then Some(Modify)
    else if IN_MOVE_SELF & mask != 0 then Some(MoveSelf)
    else if IN_MOVED_FROM & mask != 0 then Some(MovedFrom)
    else if IN_MOVED_TO & mask != 0 then Some(MovedTo)
    else if IN_OPEN & mask != 0 then Some(Open)
    else None
  }

  /** mask2str: the name of the first known bit set, in the order of its tests. */
  function EventName(mask: bv32): (r: Option<string>)
    ensures r.None? <==> mask & KNOWN_EVENTS == 0
    ensures r.Some? ==> exists k ::
      && r.value == Label(k) && mask & Bit(k) != 0
      && forall j :: Rank(j) < Rank(k) ==> mask & Bit(j) == 0
  {
    match MaskToKind(mask)
    case None => None
    case Some(k) => Some(Label(k))
  }

  /** A mask holding one known bit is named after that bit. */
  lemma SingleBitNamed(k: EventKind)
    ensures MaskToKind(Bit(k)) == Some(k)
    ensures EventName(Bit(k)) == Some(Label(k))
  {
  }
}
