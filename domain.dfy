/** The two entities of the dashboard and the row-by-row rewrites that the
    fixture store and the client apply to their tables (index.tsx, the `Goleiro`
    and `Partida` interfaces and the `map` callbacks of `toggleStatus` and
    `assignGoleiro`). The floating-point `rating` field is not modelled. */
module Domain {
  import opened Wrappers

  /** A goalkeeper row; `status` is true for "Ativo". */
  datatype Goleiro = Goleiro(
    id: int,
    nomecompleto: string,
    whatsapp: string,
    cidade: string,
    tipo_campo: string,
    status: bool,
    fotoperfil: string)

  datatype MatchStatus = Confirmado | Pendente | Cancelado

  /** A match row; `idgoleiro` is `None` where the source has `null`. */
  datatype Partida = Partida(
    id: int,
    data: string,
    hora: string,
    endereco: string,
    tipocampo: string,
    contratante: string,
    idgoleiro: Option<int>,
    status: MatchStatus)

  predicate IsActive(g: Goleiro) { g.status }

  predicate IsConfirmed(p: Partida) { p.status == Confirmado }

  /** Every confirmed match has a goalkeeper. Nothing in the storage enforces it;
      `assignGoleiro` is the only operation that can confirm a match. */
  predicate ConfirmedHaveGoalkeeper(ps: seq<Partida>)
  {
    forall i :: 0 <= i < |ps| && ps[i].status == Confirmado ==> ps[i].idgoleiro.Some?
  }

  predicate UniqueGoleiroIds(gs: seq<Goleiro>)
  {
    forall i, j :: 0 <= i < j < |gs| ==> gs[i].id != gs[j].id
  }

  predicate UniquePartidaIds(ps: seq<Partida>)
  {
    forall i, j :: 0 <= i < j < |ps| ==> ps[i].id != ps[j].id
  }

  /** The goalkeeper table after toggling `id`: every row with that id has its
      status negated, and nothing else changes. */
  function ToggleRows(gs: seq<Goleiro>, id: int): (r: seq<Goleiro>)
    ensures |r| == |gs|
    ensures forall i :: 0 <= i < |gs| ==>
      r[i].status == (if gs[i].id == id then !gs[i].status else gs[i].status)
    ensures forall i :: 0 <= i < |gs| ==> r[i].(status := gs[i].status) == gs[i]
  {
    seq(|gs|, i requires 0 <= i < |gs| => if gs[i].id == id then gs[i].(status := !gs[i].status) else gs[i])
  }

  /** The match table after assigning goalkeeper `goleiroId` to match
      `partidaId`: every row with that id gets the goalkeeper and is confirmed,
      whatever its status was, and nothing else changes. */
  function AssignRows(ps: seq<Partida>, partidaId: int, goleiroId: int): (r: seq<Partida>)
    ensures |r| == |ps|
    ensures forall i :: 0 <= i < |ps| && ps[i].id == partidaId ==>
      r[i].idgoleiro == Some(goleiroId) && r[i].status == Confirmado
    ensures forall i :: 0 <= i < |ps| ==>
      r[i].(idgoleiro := ps[i].idgoleiro, status := ps[i].status) == ps[i]
    ensures forall i :: 0 <= i < |ps| && ps[i].id != partidaId ==> r[i] == ps[i]
  {
    seq(|ps|, i requires 0 <= i < |ps| =>
      if ps[i].id == partidaId then ps[i].(idgoleiro := Some(goleiroId), status := Confirmado) else ps[i])
  }

  /** Toggling the same id twice restores the table. */
  lemma ToggleTwice(gs: seq<Goleiro>, id: int)
    ensures ToggleRows(ToggleRows(gs, id), id) == gs
  {
    var once := ToggleRows(gs, id);
    var twice := ToggleRows(once, id);
    forall i | 0 <= i < |gs| ensures twice[i] == gs[i] {
      assert once[i].id == gs[i].id;
    }
  }

  /** Toggling an id that no row has leaves the table as it is. */
  lemma ToggleAbsent(gs: seq<Goleiro>, id: int)
    requires forall i :: 0 <= i < |gs| ==> gs[i].id != id
    ensures ToggleRows(gs, id) == gs
  {
    var r := ToggleRows(gs, id);
    forall i | 0 <= i < |gs| ensures r[i] == gs[i] {
      assert r[i].(status := gs[i].status) == gs[i];
    }
  }

  /** Assigning the same goalkeeper to the same match twice is the same as
      assigning once. */
  lemma AssignIdempotent(ps: seq<Partida>, partidaId: int, goleiroId: int)
    ensures AssignRows(AssignRows(ps, partidaId, goleiroId), partidaId, goleiroId)
         == AssignRows(ps, partidaId, goleiroId)
  {
    var once := AssignRows(ps, partidaId, goleiroId);
    var twice := AssignRows(once, partidaId, goleiroId);
    forall i | 0 <= i < |ps| ensures twice[i] == once[i] {
      assert once[i].id == ps[i].id;
    }
  }

  /** Assigning a match with no such id leaves the table as it is. */
  lemma AssignAbsent(ps: seq<Partida>, partidaId: int, goleiroId: int)
    requires forall i :: 0 <= i < |ps| ==> ps[i].id != partidaId
    ensures AssignRows(ps, partidaId, goleiroId) == ps
  {
  }

  /** Assignment keeps every confirmed match with a goalkeeper. */
  lemma AssignPreservesConfirmedHaveGoalkeeper(ps: seq<Partida>, partidaId: int, goleiroId: int)
    requires ConfirmedHaveGoalkeeper(ps)
    ensures ConfirmedHaveGoalkeeper(AssignRows(ps, partidaId, goleiroId))
  {
    var r := AssignRows(ps, partidaId, goleiroId);
    forall i | 0 <= i < |r| && r[i].status == Confirmado ensures r[i].idgoleiro.Some? {
      if ps[i].id != partidaId {
        assert r[i] == ps[i];
      }
    }
  }

  /** Neither rewrite changes any row's id, so unique ids stay unique. */
  lemma ToggleKeepsIds(gs: seq<Goleiro>, id: int)
    ensures forall i :: 0 <= i < |gs| ==> ToggleRows(gs, id)[i].id == gs[i].id
    ensures UniqueGoleiroIds(gs) ==> UniqueGoleiroIds(ToggleRows(gs, id))
  {
    var r := ToggleRows(gs, id);
    assert forall i :: 0 <= i < |gs| ==> r[i].id == r[i].(status := gs[i].status).id;
  }

  lemma AssignKeepsIds(ps: seq<Partida>, partidaId: int, goleiroId: int)
    ensures forall i :: 0 <= i < |ps| ==> AssignRows(ps, partidaId, goleiroId)[i].id == ps[i].id
    ensures UniquePartidaIds(ps) ==> UniquePartidaIds(AssignRows(ps, partidaId, goleiroId))
  {
    var r := AssignRows(ps, partidaId, goleiroId);
    assert forall i :: 0 <= i < |ps| ==> r[i].id == r[i].(idgoleiro := ps[i].idgoleiro, status := ps[i].status).id;
  }

  lemma ToggleRowsTail(gs: seq<Goleiro>, id: int)
    requires gs != []
    ensures ToggleRows(gs, id)[1..] == ToggleRows(gs[1..], id)
  {
    var r := ToggleRows(gs, id);
    var t := ToggleRows(gs[1..], id);
    forall i | 0 <= i < |t| ensures r[1..][i] == t[i] {
      assert gs[1..][i] == gs[i + 1];
    }
  }

  lemma AssignRowsTail(ps: seq<Partida>, partidaId: int, goleiroId: int)
    requires ps != []
    ensures AssignRows(ps, partidaId, goleiroId)[1..] == AssignRows(ps[1..], partidaId, goleiroId)
  {
    var r := AssignRows(ps, partidaId, goleiroId);
    var t := AssignRows(ps[1..], partidaId, goleiroId);
    forall i | 0 <= i < |t| ensures r[1..][i] == t[i] {
      assert ps[1..][i] == ps[i + 1];
    }
  }
}
