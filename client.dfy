/** The client state of the `App` component (index.tsx): the cached tables,
    the loading and updating flags and the swap dialog, with the handlers that
    change them. Every `await` on the fixture store is an immediate step, so a
    handler runs to completion before the next event. */
module Client {
  import opened Wrappers
  import opened JsNumbers
  import opened Domain
  import opened Dashboard
  import opened MockStore

  datatype View = DashboardView | GoleirosView | PartidasView

  /** A value the swap `<select>` can hold: its placeholder `""`, or an option
      value, which `parseInt` reads as a number. */
  predicate SelectionReadable(s: string)
  {
    s == "" || ParseInt(s).Some?
  }

  class App {
    const db: MockDb
    var view: View
    var goleiros: seq<Goleiro>
    var partidas: seq<Partida>
    var isLoading: bool
    var isUpdating: bool
    var isSwapModalOpen: bool
    var selectedPartidaForSwap: Option<Partida>
    var selectedNewGoleiroId: string

    /** The state every handler keeps: the store's invariant, a cache in which
        every confirmed match has a goalkeeper, the dialog open only with a
        match selected, a readable selection, and no update in flight between
        events. */
    ghost predicate Valid()
      reads this, db
    {
      db.Valid() &&
      ConfirmedHaveGoalkeeper(partidas) &&
      (isSwapModalOpen ==> selectedPartidaForSwap.Some?) &&
      SelectionReadable(selectedNewGoleiroId) &&
      !isUpdating
    }

    /** The cache shows exactly what the store holds. */
    ghost predicate Synced()
      reads this, db
    {
      goleiros == db.goleiros && partidas == db.partidas
    }

    /** The initial `useState` values: empty tables, loading, dialog closed. */
    constructor (store: MockDb)
      requires store.Valid()
      ensures db == store && Valid()
      ensures view == DashboardView && goleiros == [] && partidas == []
      ensures isLoading && !isUpdating && !isSwapModalOpen
      ensures selectedPartidaForSwap == None && selectedNewGoleiroId == ""
    {
      db := store;
      view := DashboardView;
      goleiros := [];
      partidas := [];
      isLoading := true;
      isUpdating := false;
      isSwapModalOpen := false;
      selectedPartidaForSwap := None;
      selectedNewGoleiroId := "";
    }

    /** `fetchData`, run on mount: both tables are listed and cached. */
    method FetchData()
      requires Valid()
      modifies this
      ensures Valid() && Synced() && !isLoading
      ensures view == old(view) && isSwapModalOpen == old(isSwapModalOpen)
      ensures selectedPartidaForSwap == old(selectedPartidaForSwap)
      ensures selectedNewGoleiroId == old(selectedNewGoleiroId)
    {
      isLoading := true;
      var gs := db.ListGoleiros();
      var ps := db.ListPartidas();
      goleiros := gs;
      partidas := ps;
      isLoading := false;
    }

    /** The sidebar tabs. */
    method SetView(v: View)
      requires Valid()
      modifies this
      ensures Valid() && view == v
      ensures goleiros == old(goleiros) && partidas == old(partidas)
      ensures isLoading == old(isLoading) && isSwapModalOpen == old(isSwapModalOpen)
      ensures selectedPartidaForSwap == old(selectedPartidaForSwap)
      ensures selectedNewGoleiroId == old(selectedNewGoleiroId)
    {
      view := v;
    }

    /** `toggleGoleiroStatus(id)`: toggles in the store, then applies the same
        row rewrite to the cache. */
    method ToggleGoleiroStatus(id: int)
      requires Valid()
      modifies this, db
      ensures Valid()
      ensures db.goleiros == ToggleRows(old(db.goleiros), id) && db.partidas == old(db.partidas)
      ensures goleiros == ToggleRows(old(goleiros), id) && partidas == old(partidas)
      ensures old(Synced()) ==> Synced()
      ensures view == old(view) && isLoading == old(isLoading) && isSwapModalOpen == old(isSwapModalOpen)
      ensures selectedPartidaForSwap == old(selectedPartidaForSwap)
      ensures selectedNewGoleiroId == old(selectedNewGoleiroId)
    {
      isUpdating := true;
      db.ToggleStatus(id);
      goleiros := ToggleRows(goleiros, id);
      isUpdating := false;
    }

    /** `openSwapModal(partida)`. */
    method OpenSwapModal(partida: Partida)
      requires Valid()
      modifies this
      ensures Valid()
      ensures selectedPartidaForSwap == Some(partida) && selectedNewGoleiroId == "" && isSwapModalOpen
      ensures goleiros == old(goleiros) && partidas == old(partidas)
      ensures view == old(view) && isLoading == old(isLoading)
    {
      selectedPartidaForSwap := Some(partida);
      selectedNewGoleiroId := "";
      isSwapModalOpen := true;
    }

    /** The dialog's "Cancelar" button. */
    method CloseSwapModal()
      requires Valid()
      modifies this
      ensures Valid() && !isSwapModalOpen
      ensures goleiros == old(goleiros) && partidas == old(partidas)
      ensures view == old(view) && isLoading == old(isLoading)
      ensures selectedPartidaForSwap == old(selectedPartidaForSwap)
      ensures selectedNewGoleiroId == old(selectedNewGoleiroId)
    {
      isSwapModalOpen := false;
    }

    /** The `<select>`'s `onChange`: the value becomes the chosen option's,
        the placeholder for `option == 0`, otherwise `String(g.id)` of the
        `option`-th active goalkeeper. */
    method SelectNewGoleiro(option: nat)
      requires Valid()
      requires option < |SwapOptions(goleiros)|
      modifies this
      ensures Valid()
      ensures selectedNewGoleiroId == old(SwapOptions(goleiros)[option])
      ensures option > 0 ==> ParseInt(selectedNewGoleiroId) == Some(old(ActiveGoleiros(goleiros)[option - 1].id))
      ensures goleiros == old(goleiros) && partidas == old(partidas)
      ensures view == old(view) && isLoading == old(isLoading) && isSwapModalOpen == old(isSwapModalOpen)
      ensures selectedPartidaForSwap == old(selectedPartidaForSwap)
    {
      SwapOptionParses(goleiros, option);
      selectedNewGoleiroId := SwapOptions(goleiros)[option];
    }

    /** `confirmSwap`: with a match selected and a goalkeeper chosen, assigns
        in the store, applies the same rewrite to the cache and closes the
        dialog; otherwise nothing happens. */
    method ConfirmSwap()
      requires Valid()
      modifies this, db
      ensures Valid()
      ensures old(selectedPartidaForSwap).None? || old(selectedNewGoleiroId) == "" ==>
        unchanged(this) && unchanged(db)
      ensures old(selectedPartidaForSwap).Some? && old(selectedNewGoleiroId) != "" ==>
        var partidaId := old(selectedPartidaForSwap).value.id;
        var goleiroId := ParseInt(old(selectedNewGoleiroId)).value;
        db.partidas == AssignRows(old(db.partidas), partidaId, goleiroId) &&
        partidas == AssignRows(old(partidas), partidaId, goleiroId) &&
        !isSwapModalOpen
      ensures db.goleiros == old(db.goleiros) && goleiros == old(goleiros)
      ensures old(Synced()) ==> Synced()
      ensures view == old(view) && isLoading == old(isLoading)
      ensures selectedPartidaForSwap == old(selectedPartidaForSwap)
      ensures selectedNewGoleiroId == old(selectedNewGoleiroId)
    {
      if selectedPartidaForSwap.Some? && selectedNewGoleiroId != "" {
        isUpdating := true;
        var partidaId := selectedPartidaForSwap.value.id;
        db.AssignGoleiro(partidaId, ParseInt(selectedNewGoleiroId).value);
        AssignPreservesConfirmedHaveGoalkeeper(partidas, partidaId, ParseInt(selectedNewGoleiroId).value);
        partidas := AssignRows(partidas, partidaId, ParseInt(selectedNewGoleiroId).value);
        isSwapModalOpen := false;
        isUpdating := false;
      }
    }
  }

  /** On the fixture, the first goalkeeper the swap dialog offers is
      goalkeeper 1. */
  lemma FixtureFirstOption()
    ensures |ActiveGoleiros(InitialGoleiros())| > 0
    ensures ActiveGoleiros(InitialGoleiros())[0].id == 1
  {
    var gs := InitialGoleiros();
    assert IsActive(gs[0]);
    assert ActiveGoleiros(gs) == [gs[0]] + ActiveGoleiros(gs[1..]);
  }

  /** A session on the fixture: mount, open the dialog for the `k`-th match,
      pick the first option offered (goalkeeper 1) and confirm. Afterwards
      that match is confirmed with goalkeeper 1 in the cache and in the store,
      and the dialog is closed. */
  method SwapSession(k: nat) returns (app: App)
    requires k < |InitialPartidas()|
    ensures app.Valid() && app.Synced() && !app.isSwapModalOpen
    ensures |app.partidas| == |InitialPartidas()|
    ensures app.partidas[k].idgoleiro == Some(1) && app.partidas[k].status == Confirmado
  {
    var store := new MockDb();
    app := new App(store);
    app.FetchData();
    var partida := app.partidas[k];
    app.OpenSwapModal(partida);
    FixtureFirstOption();
    app.SelectNewGoleiro(1);
    app.ConfirmSwap();
  }
}
