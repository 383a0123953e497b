/** Which memory is public, private to a party, or blind to it. */
module Visibility {

  datatype Range = Range(start: nat, end: nat)
  {
    predicate Holds(i: nat) {
      start <= i < end
    }

    function Cells(): (r: set<nat>)
      ensures forall i: nat :: i in r <==> Holds(i)
    {
      set i | start <= i < end && Holds(i)
    }
  }

  datatype VisibilityView = VisibilityView(len: nat, uninit: set<nat>, public: set<nat>, priv: set<nat>,
                                           blind: set<nat>, visible: set<nat>)
  {
    /** Every cell has exactly one visibility, or none yet. */
    ghost predicate Valid() {
      && uninit + public + priv + blind == Range(0, len).Cells()
      && uninit !! public !! priv !! blind
      && visible == public + priv
    }

    function Alloc(n: nat): (r: VisibilityView) {
      this.(len := len + n, uninit := uninit + Range(len, len + n).Cells())
    }

    predicate IsSet(range: Range) {
      range.end <= len && range.Cells() !! uninit
    }

    predicate IsSetAny(range: Range) {
      var start, end := if range.start <= len then range.start else len, if range.end <= len then range.end else len;
      start < end && Range(start, end).Cells() - uninit != {}
    }

    predicate IsVisible(range: Range) {
      range.Cells() <= visible
    }

    function SetPublic(range: Range): VisibilityView
      requires range.end <= len
    {
      var c := range.Cells();
      this.(public := public + c, visible := visible + c, uninit := uninit - c, priv := priv - c, blind := blind - c)
    }

    function SetPrivate(range: Range): VisibilityView
      requires range.end <= len
    {
      var c := range.Cells();
      this.(priv := priv + c, visible := visible + c, uninit := uninit - c, public := public - c, blind := blind - c)
    }

    function SetBlind(range: Range): VisibilityView
      requires range.end <= len
    {
      var c := range.Cells();
      this.(blind := blind + c, visible := visible - c, uninit := uninit - c, public := public - c, priv := priv - c)
    }
  }

  function NewView(): VisibilityView {
    VisibilityView(0, {}, {}, {}, {}, {})
  }

  lemma AllocKeeps(v: VisibilityView, n: nat)
    requires v.Valid()
    ensures v.Alloc(n).Valid()
  {
  }

  /** Setting a visibility keeps the partition. */
  lemma SetKeeps(v: VisibilityView, range: Range)
    requires v.Valid() && range.end <= v.len
    ensures v.SetPublic(range).Valid() && v.SetPrivate(range).Valid() && v.SetBlind(range).Valid()
  {
  }

  /** An allocated range with nothing set is all uninitialized, so setting it changes no visibility already set. */
  lemma FreshRange(v: VisibilityView, range: Range)
    requires v.Valid() && range.end <= v.len && !v.IsSetAny(range)
    ensures range.Cells() <= v.uninit
    ensures range.Cells() !! v.public && range.Cells() !! v.priv && range.Cells() !! v.blind
  {
    if range.start < range.end {
      var missing := Range(range.start, range.end).Cells() - v.uninit;
      assert missing == {};
      forall i | i in range.Cells() ensures i in v.uninit {
        assert i in v.uninit || i in missing;
      }
    }
  }

  /** The other party's view: public to both, private to one and blind to the other. */
  predicate Mirrored(a: VisibilityView, b: VisibilityView) {
    a.len == b.len && a.uninit == b.uninit && a.public == b.public && a.priv == b.blind && a.blind == b.priv
  }
}
