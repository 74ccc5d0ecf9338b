/** What the views derive from the cached tables: the dashboard's KPI cards, the
    goalkeepers offered by the swap dialog and the goalkeeper shown for a match
    (index.tsx, `renderDashboard`, the swap `<select>` and `renderPartidas`). */
module Dashboard {
  import opened Wrappers
  import opened Seqs
  import opened JsNumbers
  import opened Domain

  /** Estimated revenue per confirmed match, in reais. */
  const RevenuePerConfirmed: nat := 80

  /** `goleiros.filter(g => g.status)`: shared by the "Goleiros Ativos" card
      and the swap dialog's options. */
  function ActiveGoleiros(gs: seq<Goleiro>): (r: seq<Goleiro>)
    ensures |r| <= |gs|
    ensures forall i :: 0 <= i < |r| ==> r[i].status && r[i] in gs
    ensures forall i :: 0 <= i < |gs| && gs[i].status ==> gs[i] in r
  {
    Filter(gs, IsActive)
  }

  /** `partidas.filter(p => p.status === 'confirmado')`. */
  function ConfirmedPartidas(ps: seq<Partida>): (r: seq<Partida>)
    ensures |r| <= |ps|
    ensures forall i :: 0 <= i < |r| ==> r[i].status == Confirmado && r[i] in ps
    ensures forall i :: 0 <= i < |ps| && ps[i].status == Confirmado ==> ps[i] in r
  {
    Filter(ps, IsConfirmed)
  }

  datatype Kpis = Kpis(totalPartidas: nat, confirmadas: nat, ativos: nat, receitas: nat)

  /** The four KPI cards of the dashboard. */
  function DashboardKpis(gs: seq<Goleiro>, ps: seq<Partida>): (k: Kpis)
    ensures k.totalPartidas == |ps|
    ensures k.confirmadas <= k.totalPartidas
    ensures k.ativos <= |gs|
    ensures k.receitas == RevenuePerConfirmed * k.confirmadas
    ensures k.confirmadas == |ConfirmedPartidas(ps)| && k.ativos == |ActiveGoleiros(gs)|
  {
    var confirmadas := |ConfirmedPartidas(ps)|;
    Kpis(|ps|, confirmadas, |ActiveGoleiros(gs)|, confirmadas * RevenuePerConfirmed)
  }

  /** `goleiros.find(g => g.id === p.idgoleiro)`: no goalkeeper matches a
      `null` id, and a dangling id finds nothing either. */
  function GoleiroOf(gs: seq<Goleiro>, p: Partida): (r: Option<Goleiro>)
    ensures p.idgoleiro.None? ==> r.None?
    ensures r.Some? ==> r.value in gs && p.idgoleiro == Some(r.value.id)
    ensures r.None? ==> forall i :: 0 <= i < |gs| ==> p.idgoleiro != Some(gs[i].id)
  {
    Find(gs, (g: Goleiro) => Some(g.id) == p.idgoleiro)
  }

  /** With unique ids the lookup finds exactly the goalkeeper the match names. */
  lemma GoleiroOfUnique(gs: seq<Goleiro>, p: Partida, k: nat)
    requires UniqueGoleiroIds(gs) && k < |gs|
    ensures GoleiroOf(gs, p) == Some(gs[k]) <==> p.idgoleiro == Some(gs[k].id)
  {
    var r := GoleiroOf(gs, p);
    if p.idgoleiro == Some(gs[k].id) {
      var i :| 0 <= i < |gs| && gs[i] == r.value && Some(gs[i].id) == p.idgoleiro &&
               forall j :: 0 <= j < i ==> Some(gs[j].id) != p.idgoleiro;
      assert i == k;
    }
  }

  /** The `<option>` values of the swap dialog: the empty placeholder, then
      `String(g.id)` for every active goalkeeper in table order. */
  function SwapOptions(gs: seq<Goleiro>): (r: seq<string>)
    ensures |r| == |ActiveGoleiros(gs)| + 1
    ensures r[0] == ""
    ensures forall i :: 0 <= i < |ActiveGoleiros(gs)| ==> r[i + 1] == IntToString(ActiveGoleiros(gs)[i].id)
  {
    var active := ActiveGoleiros(gs);
    [""] + seq(|active|, i requires 0 <= i < |active| => IntToString(active[i].id))
  }

  /** Picking the `k`-th option and reading it back with `parseInt` yields the
      id of an active goalkeeper; only the placeholder is empty. */
  lemma SwapOptionParses(gs: seq<Goleiro>, k: nat)
    requires k < |SwapOptions(gs)|
    ensures (SwapOptions(gs)[k] == "") <==> k == 0
    ensures k > 0 ==> ParseInt(SwapOptions(gs)[k]) == Some(ActiveGoleiros(gs)[k - 1].id)
    ensures k > 0 ==> ActiveGoleiros(gs)[k - 1].status && ActiveGoleiros(gs)[k - 1] in gs
  {
    if k > 0 {
      ParseIntOfIntToString(ActiveGoleiros(gs)[k - 1].id);
    }
  }

  lemma ActiveCountCons(gs: seq<Goleiro>)
    requires gs != []
    ensures |ActiveGoleiros(gs)| == (if gs[0].status then 1 else 0) + |ActiveGoleiros(gs[1..])|
  {
  }

  lemma ConfirmedCountCons(ps: seq<Partida>)
    requires ps != []
    ensures |ConfirmedPartidas(ps)| == (if ps[0].status == Confirmado then 1 else 0) + |ConfirmedPartidas(ps[1..])|
  {
  }

  /** Toggling an existing goalkeeper moves the "Goleiros Ativos" count by one,
      down if it was active and up if it was not. */
  lemma {:induction false} ToggleShiftsActiveCount(gs: seq<Goleiro>, k: nat)
    requires UniqueGoleiroIds(gs) && k < |gs|
    ensures |ActiveGoleiros(ToggleRows(gs, gs[k].id))|
         == |ActiveGoleiros(gs)| + (if gs[k].status then -1 else 1)
  {
    var id := gs[k].id;
    var r := ToggleRows(gs, id);
    var tail := gs[1..];
    ToggleRowsTail(gs, id);
    ToggleKeepsIds(gs, id);
    ActiveCountCons(r);
    ActiveCountCons(gs);
    if k == 0 {
      assert forall i :: 0 <= i < |tail| ==> tail[i] == gs[i + 1];
      ToggleAbsent(tail, id);
    } else {
      assert gs[0].id != id;
      assert tail[k - 1] == gs[k];
      UniqueTail(gs);
      ToggleShiftsActiveCount(tail, k - 1);
    }
  }

  lemma UniqueTail(gs: seq<Goleiro>)
    requires gs != [] && UniqueGoleiroIds(gs)
    ensures UniqueGoleiroIds(gs[1..])
  {
    var tail := gs[1..];
    forall i, j | 0 <= i < j < |tail| ensures tail[i].id != tail[j].id {
      assert tail[i] == gs[i + 1] && tail[j] == gs[j + 1];
    }
  }

  lemma UniquePartidaTail(ps: seq<Partida>)
    requires ps != [] && UniquePartidaIds(ps)
    ensures UniquePartidaIds(ps[1..])
  {
    var tail := ps[1..];
    forall i, j | 0 <= i < j < |tail| ensures tail[i].id != tail[j].id {
      assert tail[i] == ps[i + 1] && tail[j] == ps[j + 1];
    }
  }

  /** Assigning a goalkeeper to an existing match raises the "Confirmados" count
      by one unless the match was already confirmed. */
  lemma {:induction false} AssignRaisesConfirmedCount(ps: seq<Partida>, k: nat, goleiroId: int)
    requires UniquePartidaIds(ps) && k < |ps|
    ensures |ConfirmedPartidas(AssignRows(ps, ps[k].id, goleiroId))|
         == |ConfirmedPartidas(ps)| + (if ps[k].status == Confirmado then 0 else 1)
  {
    var id := ps[k].id;
    var r := AssignRows(ps, id, goleiroId);
    var tail := ps[1..];
    AssignRowsTail(ps, id, goleiroId);
    ConfirmedCountCons(r);
    ConfirmedCountCons(ps);
    if k == 0 {
      assert forall i :: 0 <= i < |tail| ==> tail[i] == ps[i + 1];
      AssignAbsent(tail, id, goleiroId);
    } else {
      assert ps[0].id != id;
      assert tail[k - 1] == ps[k];
      UniquePartidaTail(ps);
      AssignRaisesConfirmedCount(tail, k - 1, goleiroId);
    }
  }
}
