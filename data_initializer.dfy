/**
 * The start-up seeding of the dictionaries (DataInitializer): roles,
 * sectors, frequencies and work types are each filled with fixed rows when,
 * and only when, that table is empty.
 */
module Seeding {
  import opened Common
  import opened Records
  import opened Store
  import opened AssignmentJob
  import opened TaskResolver

  const SeedRoles: seq<Role> := [Role(1, Some("Оператор")), Role(2, Some("Администратор"))]

  const SeedSectors: seq<Sector> := [Sector(1, Some("Сектор 1")), Sector(2, Some("Сектор 2"))]

  /** Only the name of a seeded frequency is set: no kind and no intervals. */
  const SeedFrequencies: seq<WorkFrequency> := [
    WorkFrequency(1, None, Some("Ежедневно"), None, None),
    WorkFrequency(2, None, Some("Еженедельно"), None, None),
    WorkFrequency(3, None, Some("Ежемесячно"), None, None),
    WorkFrequency(4, None, Some("Раз в квартал"), None, None),
    WorkFrequency(5, None, Some("Раз в год"), None, None)]

  const SeedWorkTypes: seq<WorkType> := [WorkType(1, Some("Обычная")), WorkType(2, Some("КО"))]

  /** A table after its seeding step: the seed rows if it held none, else unchanged. */
  function Seeded<T>(table: seq<T>, seed: seq<T>): seq<T> {
    if table == [] then seed else table
  }

  /** A seeding step leaves a table non-empty and never touches a table that has rows; repeating it changes nothing. */
  lemma SeededMeaning<T>(table: seq<T>, seed: seq<T>)
    requires seed != []
    ensures Seeded(table, seed) != []
    ensures table != [] ==> Seeded(table, seed) == table
    ensures Seeded(Seeded(table, seed), seed) == Seeded(table, seed)
  {
  }

  /** Start-up seeding of the four dictionaries. */
  method Initialize(db: Db)
    requires db.Valid()
    modifies db`roles, db`sectors, db`frequencies, db`workTypes
    ensures db.Valid()
    ensures db.roles == Seeded(old(db.roles), SeedRoles)
    ensures db.sectors == Seeded(old(db.sectors), SeedSectors)
    ensures db.frequencies == Seeded(old(db.frequencies), SeedFrequencies)
    ensures db.workTypes == Seeded(old(db.workTypes), SeedWorkTypes)
    ensures db.roles != [] && db.sectors != [] && db.frequencies != [] && db.workTypes != []
  {
    if db.roles == [] {
      db.roles := SeedRoles;
    }
    if db.sectors == [] {
      db.sectors := SeedSectors;
    }
    if db.frequencies == [] {
      db.frequencies := SeedFrequencies;
    }
    if db.workTypes == [] {
      db.workTypes := SeedWorkTypes;
    }
  }

  /** On an empty database every work of the fixed work-to-frequency table finds its frequency among the seeded rows. */
  lemma SeededFrequenciesCoverMap(frequencies: seq<WorkFrequency>, workId: int)
    requires workId in WorkFreqMap
    ensures Eligible(Seeded(frequencies, SeedFrequencies), workId) <==>
      frequencies == [] || FindFrequency(frequencies, WorkFreqMap[workId]).Some?
  {
    if frequencies == [] {
      var f := WorkFreqMap[workId];
      assert 1 <= f <= 5;
      assert SeedFrequencies[f - 1].id == f;
    }
  }

  /** The seeded weekly to yearly frequencies carry no interval, so the task list counts them as due again after zero days. */
  lemma SeededIntervalsAreZero(f: WorkFrequency)
    requires f in SeedFrequencies
    ensures ListIntervalDays(f) == (if f.id == 1 then 7 else 0)
  {
  }
}
