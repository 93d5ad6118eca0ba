/**
 * Programs: starting one (the router and the controller share the logic and differ
 * only in the success message and the name of the key field) and listing the active ones.
 */
module Programs {
  import opened Js
  import opened Tables

  const MsgRequired := "Duración y modo son obligatorios."
  /** The router's success message. */
  const MsgStartedRoute := "Programa iniciado exitosamente"
  /** The controller's success message. */
  const MsgStartedController := "✅ Programa iniciado exitosamente."

  /** Starting a program: 400 unless both `duration` and `mode` are truthy; otherwise one
      active row holding both values is inserted and 201 carries its key. `started` is
      the success message of the caller. */
  function Start(db: Db, duration: Scalar, mode: Scalar, started: string): (r: Step<nat>)
    ensures r.reply.status == 201 <==> ScalarTruthy(duration) && ScalarTruthy(mode)
    ensures r.reply.status != 201 ==> r == Step(Reply(400, MsgRequired, None), db)
    ensures r.reply.status == 201 ==>
            && r.reply == Reply(201, started, Some(db.nextProgram))
            && r.db == db.(programs := db.programs[db.nextProgram := Program(duration, mode, 1)],
                           nextProgram := db.nextProgram + 1)
    ensures Valid(db) ==> Valid(r.db)
  {
    if !ScalarTruthy(duration) || !ScalarTruthy(mode) then Step(Reply(400, MsgRequired, None), db)
    else
      Step(Reply(201, started, Some(db.nextProgram)),
           db.(programs := db.programs[db.nextProgram := Program(duration, mode, 1)], nextProgram := db.nextProgram + 1))
  }

  /** `SELECT * FROM programs WHERE active = 1`: the active rows in key order. */
  function ActivePrograms(db: Db): (rows: seq<(nat, Program)>)
    ensures forall i :: 0 <= i < |rows| ==> rows[i].0 in db.programs && rows[i].1 == db.programs[rows[i].0] && rows[i].1.active == 1
    ensures forall i, j :: 0 <= i < j < |rows| ==> rows[i].0 < rows[j].0
  {
    var ids := KeysWhere(db.programs, (p: Program) => p.active == 1, db.nextProgram);
    seq(|ids|, i requires 0 <= i < |ids| => (ids[i], db.programs[ids[i]]))
  }

  /** In a valid store every active program is listed. */
  lemma ActiveProgramsComplete(db: Db, id: nat)
    requires Valid(db) && id in db.programs && db.programs[id].active == 1
    ensures (id, db.programs[id]) in ActivePrograms(db)
  {
    var ids := KeysWhere(db.programs, (p: Program) => p.active == 1, db.nextProgram);
    assert id < db.nextProgram;
    var i :| 0 <= i < |ids| && ids[i] == id;
    assert ActivePrograms(db)[i] == (id, db.programs[id]);
  }

  /** A program that was just started is listed as active, with what was sent. */
  lemma StartedIsActive(db: Db, duration: Scalar, mode: Scalar, started: string)
    requires Valid(db) && ScalarTruthy(duration) && ScalarTruthy(mode)
    ensures var r := Start(db, duration, mode, started);
            (db.nextProgram, Program(duration, mode, 1)) in ActivePrograms(r.db)
  {
    var r := Start(db, duration, mode, started);
    ActiveProgramsComplete(r.db, db.nextProgram);
  }
}
