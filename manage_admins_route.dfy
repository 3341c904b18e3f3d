/** `/api/admin/manage-admins`: POST (create an admin, with a professional of its own when
    it is a plain admin), DELETE (remove an admin) and PATCH (delete an appointment), run one
    after another on the in-memory tables. */
module ManageAdminsRoute {
  import opened Records
  import opened Database
  import opened AppointmentsRoute

  const DataRequired := "Dados obrigatórios não fornecidos"
  const ProfessionalCreationFailed := "Erro ao criar profissional automaticamente"
  const EmailInUse := "Email já está em uso"
  const AdminIdRequired := "ID do admin não fornecido"
  const IdAndActionRequired := "ID do agendamento e ação são obrigatórios"
  const InvalidAction := "Ação inválida"
  const DeleteAction := "delete"

  /** The JSON body of POST; a missing or empty field is `""`. */
  datatype AdminRequest = AdminRequest(email: string, password: string, name: string,
                                       role: string, professionalId: string)

  /** The branch that creates a professional: the role sent is exactly `"admin"` and no
      professional was given. The test looks at the role as sent, before any default. */
  predicate CreatesProfessional(req: AdminRequest)
  {
    req.role == AdminRole && req.professionalId == ""
  }

  /** `role || "admin"`. */
  function RoleOrDefault(role: string): (r: string)
    ensures r != ""
    ensures role != "" ==> r == role
  {
    if role == "" then AdminRole else role
  }

  /** The professional created for a plain admin: its name and email, active. */
  function AutoProfessional(id: Id, req: AdminRequest): Professional
  {
    Professional(id, req.name, Some(req.email), None, [], true)
  }

  /** The admin row stored, given the hash of the password and the professional it ends up
      linked to (`""` for none). */
  function NewAdmin(id: Id, req: AdminRequest, passwordHash: string, professionalId: string): Admin
  {
    Admin(id, req.email, passwordHash, req.name, RoleOrDefault(req.role),
          if professionalId == "" then None else Some(professionalId))
  }

  /** POST. `passwordHash` is what hashing `req.password` gives; `professionalFails` says
      whether the automatic professional's insert fails; `fault` is the error code of a
      failed admin insert. */
  method Post(db: Db, req: AdminRequest, passwordHash: string, professionalFails: bool, fault: Option<string>)
    returns (resp: Response)
    requires db.Valid()
    modifies db`professionals, db`admins, db`nextId
    ensures db.Valid()
    ensures req.email == "" || req.password == "" || req.name == "" ==>
      resp == Response(400, ErrorBody(DataRequired))
      && db.professionals == old(db.professionals) && db.admins == old(db.admins)
    ensures req.email != "" && req.password != "" && req.name != "" && CreatesProfessional(req) && professionalFails ==>
      resp == Response(500, ErrorBody(ProfessionalCreationFailed))
      && db.professionals == old(db.professionals) && db.admins == old(db.admins)
    ensures req.email != "" && req.password != "" && req.name != "" && !(CreatesProfessional(req) && professionalFails) ==>
      var professionalId := if CreatesProfessional(req) then IdFor(old(db.nextId)) else req.professionalId;
      var adminId := if CreatesProfessional(req) then IdFor(old(db.nextId) + 1) else IdFor(old(db.nextId));
      db.professionals == old(db.professionals)
        + (if CreatesProfessional(req) then [AutoProfessional(professionalId, req)] else [])
      && (fault.Some? ==>
            db.admins == old(db.admins)
            && resp == if fault.value == UniqueViolationCode then Response(400, ErrorBody(EmailInUse)) else InternalError)
      && (fault.None? ==>
            var admin := NewAdmin(adminId, req, passwordHash, professionalId);
            db.admins == old(db.admins) + [admin] && resp == Response(201, AdminBody(admin)))
  {
    if req.email == "" || req.password == "" || req.name == "" {
      return Response(400, ErrorBody(DataRequired));
    }
    var finalProfessionalId := req.professionalId;
    if req.role == AdminRole && req.professionalId == "" {
      if professionalFails {
        return Response(500, ErrorBody(ProfessionalCreationFailed));
      }
      finalProfessionalId := InsertProfessional(db, req);
    }
    if fault.Some? {
      if fault.value == UniqueViolationCode {
        return Response(400, ErrorBody(EmailInUse));
      }
      return InternalError;
    }
    var admin := InsertAdmin(db, req, passwordHash, finalProfessionalId);
    resp := Response(201, AdminBody(admin));
  }

  /** Inserts the automatic professional under a fresh id. */
  method InsertProfessional(db: Db, req: AdminRequest) returns (pid: Id)
    requires db.Valid()
    modifies db`professionals, db`nextId
    ensures db.Valid()
    ensures pid == IdFor(old(db.nextId)) && db.nextId == old(db.nextId) + 1
    ensures db.professionals == old(db.professionals) + [AutoProfessional(pid, req)]
  {
    pid := db.NewId();
    db.professionals := db.professionals + [AutoProfessional(pid, req)];
    assert ProfessionalIds(db.professionals) == ProfessionalIds(old(db.professionals)) + [pid];
  }

  /** Inserts the admin row under a fresh id. */
  method InsertAdmin(db: Db, req: AdminRequest, passwordHash: string, professionalId: string) returns (admin: Admin)
    requires db.Valid()
    modifies db`admins, db`nextId
    ensures db.Valid()
    ensures admin == NewAdmin(IdFor(old(db.nextId)), req, passwordHash, professionalId)
    ensures db.admins == old(db.admins) + [admin]
  {
    var id := db.NewId();
    admin := NewAdmin(id, req, passwordHash, professionalId);
    db.admins := db.admins + [admin];
    assert AdminIds(db.admins) == AdminIds(old(db.admins)) + [id];
  }

  /** DELETE. `fails` says whether the delete fails. */
  method Delete(db: Db, adminId: string, fails: bool) returns (resp: Response)
    requires db.Valid()
    modifies db`admins
    ensures db.Valid()
    ensures adminId == "" ==> resp == Response(400, ErrorBody(AdminIdRequired)) && db.admins == old(db.admins)
    ensures adminId != "" && fails ==> resp == InternalError && db.admins == old(db.admins)
    ensures adminId != "" && !fails ==>
      resp == Response(200, SuccessBody) && db.admins == WithoutAdmin(old(db.admins), adminId)
  {
    if adminId == "" {
      return Response(400, ErrorBody(AdminIdRequired));
    }
    if fails {
      return InternalError;
    }
    AdminIdsWithout(db.admins, adminId);
    DropIdKeepsIssued(AdminIds(db.admins), adminId, db.nextId);
    db.admins := WithoutAdmin(db.admins, adminId);
    resp := Response(200, SuccessBody);
  }

  /** PATCH: the only action is `"delete"`, which removes the appointment. `fails` says
      whether the delete fails. */
  method Patch(db: Db, appointmentId: string, action: string, fails: bool) returns (resp: Response)
    requires db.Valid()
    modifies db`appointments
    ensures db.Valid()
    ensures appointmentId == "" || action == "" ==>
      resp == Response(400, ErrorBody(IdAndActionRequired)) && db.appointments == old(db.appointments)
    ensures appointmentId != "" && action != "" && action != DeleteAction ==>
      resp == Response(400, ErrorBody(InvalidAction)) && db.appointments == old(db.appointments)
    ensures appointmentId != "" && action == DeleteAction && fails ==>
      resp == InternalError && db.appointments == old(db.appointments)
    ensures appointmentId != "" && action == DeleteAction && !fails ==>
      resp == Response(200, SuccessBody) && db.appointments == WithoutId(old(db.appointments), appointmentId)
  {
    if appointmentId == "" || action == "" {
      return Response(400, ErrorBody(IdAndActionRequired));
    }
    if action == DeleteAction {
      if fails {
        return InternalError;
      }
      AppointmentIdsWithout(db.appointments, appointmentId);
      DropIdKeepsIssued(AppointmentIds(db.appointments), appointmentId, db.nextId);
      db.appointments := WithoutId(db.appointments, appointmentId);
      return Response(200, SuccessBody);
    }
    resp := Response(400, ErrorBody(InvalidAction));
  }

  /** An admin created with the role left out is stored as a plain admin, yet no professional
      is created for it and it is linked to none. */
  lemma MissingRoleLeavesAdminUnlinked(id: Id, req: AdminRequest, passwordHash: string)
    requires req.role == "" && req.professionalId == ""
    ensures !CreatesProfessional(req)
    ensures NewAdmin(id, req, passwordHash, req.professionalId).role == AdminRole
    ensures NewAdmin(id, req, passwordHash, req.professionalId).professionalId.None?
  {
  }

  /** A plain admin created without a professional is linked to the one created for it, which
      carries its name and email. */
  lemma AutoCreatedProfessionalIsLinked(pid: Id, id: Id, req: AdminRequest, passwordHash: string)
    requires CreatesProfessional(req) && pid != ""
    ensures NewAdmin(id, req, passwordHash, pid).professionalId == Some(AutoProfessional(pid, req).id)
    ensures AutoProfessional(pid, req).name == req.name && AutoProfessional(pid, req).email == Some(req.email)
    ensures NewAdmin(id, req, passwordHash, pid).role == AdminRole
  {
  }

  /** Removing rows never creates a double booking. */
  lemma {:induction false} DeleteKeepsNoDoubleBooking(rows: seq<Appointment>, id: Id)
    requires NoDoubleBooking(rows)
    ensures NoDoubleBooking(WithoutId(rows, id))
  {
    if rows != [] {
      RestOfNoDoubleBooking(rows);
      DeleteKeepsNoDoubleBooking(rows[1..], id);
      var tail := WithoutId(rows[1..], id);
      WithoutIdMembers(rows[1..], id);
      if rows[0].id != id {
        var r := [rows[0]] + tail;
        assert WithoutId(rows, id) == r;
        forall j | 0 < j < |r| && r[0].status == Scheduled
          ensures !Occupies(r[j], r[0].professionalId, r[0].date, r[0].time)
        {
          assert r[j] in tail;
          var k :| 0 <= k < |rows[1..]| && rows[1..][k] == r[j];
          assert rows[k + 1] == r[j];
        }
      }
    }
  }
}
