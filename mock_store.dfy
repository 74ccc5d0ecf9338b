/** The in-memory fixture store `MOCK_DB` and the mock-mode branches of
    `DbService` (index.tsx). `toggleStatus` and `assignGoleiro` reassign the
    store's two tables; the `list` operations hand out a copy, which for
    Dafny's value sequences is the table itself. The simulated network delay is
    collapsed into an immediate step. */
module MockStore {
  import opened Wrappers
  import opened Domain

  /** The goalkeeper rows `MOCK_DB` starts with. */
  function InitialGoleiros(): (gs: seq<Goleiro>)
  {
    [ Goleiro(1, "Carlos Muralha", "11999990001", "São Paulo", "Society", true,
              "https://api.dicebear.com/7.x/avataaars/svg?seed=Carlos"),
      Goleiro(2, "João 'Mão de Cola'", "11999990002", "Osasco", "Campo", true,
              "https://api.dicebear.com/7.x/avataaars/svg?seed=Joao"),
      Goleiro(3, "Pedro Peneira", "11999990003", "São Paulo", "Futsal", false,
              "https://api.dicebear.com/7.x/avataaars/svg?seed=Pedro"),
      Goleiro(4, "Roberto Luva", "11999990004", "Guarulhos", "Society", true,
              "https://api.dicebear.com/7.x/avataaars/svg?seed=Roberto"),
      Goleiro(5, "André Seguro", "11999990005", "São Bernardo", "Campo", true,
              "https://api.dicebear.com/7.x/avataaars/svg?seed=Andre") ]
  }

  /** The match rows `MOCK_DB` starts with. */
  function InitialPartidas(): (ps: seq<Partida>)
  {
    [ Partida(101, "2023-10-25", "20:00", "Arena Society, SP", "Society", "Time dos Amigos", Some(1), Confirmado),
      Partida(102, "2023-10-26", "19:00", "Quadra do Zé, Osasco", "Futsal", "Firma FC", None, Pendente),
      Partida(103, "2023-10-27", "21:00", "Clube Atlético, SP", "Campo", "Real Matismo", Some(2), Confirmado),
      Partida(104, "2023-10-28", "10:00", "Arena Play, Guarulhos", "Society", "Domingueiros", Some(4), Cancelado) ]
  }

  /** The fixture has unique ids in both tables, and its confirmed matches
      (101 and 103) both have a goalkeeper. */
  lemma FixtureWellFormed()
    ensures UniqueGoleiroIds(InitialGoleiros())
    ensures UniquePartidaIds(InitialPartidas())
    ensures ConfirmedHaveGoalkeeper(InitialPartidas())
  {
  }

  class MockDb {
    var goleiros: seq<Goleiro>
    var partidas: seq<Partida>

    /** The store invariant: primary keys are unique and no confirmed match
        lacks a goalkeeper. */
    ghost predicate Valid()
      reads this
    {
      UniqueGoleiroIds(goleiros) && UniquePartidaIds(partidas) && ConfirmedHaveGoalkeeper(partidas)
    }

    constructor ()
      ensures Valid()
      ensures goleiros == InitialGoleiros() && partidas == InitialPartidas()
    {
      goleiros := InitialGoleiros();
      partidas := InitialPartidas();
      FixtureWellFormed();
    }

    /** `DbService.goleiros.list`. */
    method ListGoleiros() returns (r: seq<Goleiro>)
      ensures r == goleiros
    {
      r := goleiros;
    }

    /** `DbService.partidas.list`. */
    method ListPartidas() returns (r: seq<Partida>)
      ensures r == partidas
    {
      r := partidas;
    }

    /** `DbService.goleiros.toggleStatus(id)`: no existence check, an unknown
        id leaves the table as it is. */
    method ToggleStatus(id: int)
      requires Valid()
      modifies this
      ensures Valid()
      ensures goleiros == ToggleRows(old(goleiros), id)
      ensures partidas == old(partidas)
    {
      ToggleKeepsIds(goleiros, id);
      goleiros := ToggleRows(goleiros, id);
    }

    /** `DbService.partidas.assignGoleiro(partidaId, goleiroId)`: neither the
        match nor the goalkeeper is checked to exist, and any prior status,
        cancelled included, becomes confirmed. */
    method AssignGoleiro(partidaId: int, goleiroId: int)
      requires Valid()
      modifies this
      ensures Valid()
      ensures partidas == AssignRows(old(partidas), partidaId, goleiroId)
      ensures goleiros == old(goleiros)
    {
      AssignKeepsIds(partidas, partidaId, goleiroId);
      AssignPreservesConfirmedHaveGoalkeeper(partidas, partidaId, goleiroId);
      partidas := AssignRows(partidas, partidaId, goleiroId);
    }
  }

  /** The scenario of a pending match being taken by goalkeeper 2: match 102
      (pending, no goalkeeper) becomes confirmed with goalkeeper 2. */
  lemma AssignPendingFixtureMatch()
    ensures AssignRows(InitialPartidas(), 102, 2)[1].id == 102
    ensures AssignRows(InitialPartidas(), 102, 2)[1].idgoleiro == Some(2)
    ensures AssignRows(InitialPartidas(), 102, 2)[1].status == Confirmado
  {
  }
}
