/**
 * The three buttons of the footer and which of them is highlighted for the
 * current path: the dashboard slot (`/`) only on the root path itself, the
 * other two on every path that starts with their own.
 */
module FooterActions {
  import opened TextOps

  /** A footer button: its React key, its caption and the path it links to. */
  datatype Slot = Slot(key: string, caption: string, to: string)

  const HistorySlot := Slot("history", "Historial", "/history")
  const ChartsSlot := Slot("charts", "Gráficas", "/charts")
  const PredictionsSlot := Slot("predictions", "Predicciones", "/")

  /** `slots`, in the order the footer renders them. */
  const Slots: seq<Slot> := [HistorySlot, ChartsSlot, PredictionsSlot]

  /** `isActive`: the root path matches only exactly, every other path by prefix. */
  predicate IsActive(pathname: string, to: string) {
    if to == "/" then pathname == "/" else StartsWith(pathname, to)
  }

  const BaseClass := "footer-slot"
  const ActiveModifier := " footer-slot--active"

  /** The `className` of a slot's link. */
  function SlotClass(pathname: string, slot: Slot): (cls: string)
    ensures StartsWith(cls, BaseClass)
    ensures cls == BaseClass <==> !IsActive(pathname, slot.to)
    ensures IsActive(pathname, slot.to) ==> cls[|BaseClass|..] == ActiveModifier
  {
    BaseClass + (if IsActive(pathname, slot.to) then ActiveModifier else "")
  }

  /** The dashboard slot is active exactly on `/`. */
  lemma RootOnlyExact(pathname: string)
    ensures IsActive(pathname, PredictionsSlot.to) <==> pathname == "/"
  {
  }

  /** The history and charts slots are active exactly on the paths that start with theirs. */
  lemma PrefixSlots(pathname: string)
    ensures IsActive(pathname, HistorySlot.to) <==> |pathname| >= 8 && pathname[..8] == "/history"
    ensures IsActive(pathname, ChartsSlot.to) <==> |pathname| >= 7 && pathname[..7] == "/charts"
  {
  }

  /** Whatever the path, no two slots are active together. */
  lemma AtMostOneActive(pathname: string, i: nat, j: nat)
    requires i < |Slots| && j < |Slots|
    requires IsActive(pathname, Slots[i].to) && IsActive(pathname, Slots[j].to)
    ensures i == j
  {
    var h, c := HistorySlot.to, ChartsSlot.to;
    assert h[1] == 'h' && c[1] == 'c';
    if StartsWith(pathname, h) {
      assert pathname[1] == 'h';
    }
    if StartsWith(pathname, c) {
      assert pathname[1] == 'c';
    }
  }

  /** The number of highlighted slots is zero or one. */
  function ActiveCount(pathname: string): (n: nat)
    ensures n <= 1
    ensures n == 1 <==> exists i :: 0 <= i < |Slots| && IsActive(pathname, Slots[i].to)
  {
    var active := set i | 0 <= i < |Slots| && IsActive(pathname, Slots[i].to);
    OneActiveAtMost(pathname, active);
    |active|
  }

  lemma OneActiveAtMost(pathname: string, active: set<nat>)
    requires active == set i | 0 <= i < |Slots| && IsActive(pathname, Slots[i].to)
    ensures |active| <= 1
    ensures |active| == 1 <==> exists i :: 0 <= i < |Slots| && IsActive(pathname, Slots[i].to)
  {
    if i :| i in active {
      forall j | j in active ensures j == i {
        AtMostOneActive(pathname, i, j);
      }
      assert active == {i};
    } else {
      assert active == {};
      forall i | 0 <= i < |Slots| ensures !IsActive(pathname, Slots[i].to) {
        assert i !in active;
      }
    }
  }

  /** Prefix matching ignores segment boundaries: `/historyX` highlights the history slot. */
  lemma HistoryPrefixIgnoresBoundary(suffix: string)
    ensures IsActive(HistorySlot.to + suffix, HistorySlot.to)
  {
    assert (HistorySlot.to + suffix)[..|HistorySlot.to|] == HistorySlot.to;
  }

  /** On the root path only the dashboard slot is highlighted. */
  lemma RootHighlightsPredictions()
    ensures IsActive("/", PredictionsSlot.to)
    ensures !IsActive("/", HistorySlot.to) && !IsActive("/", ChartsSlot.to)
  {
  }
}
