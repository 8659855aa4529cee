/**
 * Whole conversations with the application, driven through the handlers
 * the way a browser would drive them and checked from their contracts alone.
 */
module Scenarios {
  import opened Wrappers
  import opened Models
  import opened Queries
  import opened Otp
  import opened Dashboard
  import opened Tracker

  /** Midnight UTC of 2030-01-01, as `strptime("2030-01-01", "%Y-%m-%d")` yields it. */
  const NewYear2030: Time := 1893456000

  /** The user types the six digits of `code` into the six boxes of the OTP page. */
  method TypeCode(app: TaskTracker, code: string, now: Time) returns (reply: Reply)
    requires app.Valid() && |code| == 6
    modifies app
    ensures app.Valid()
    ensures !Present(old(app.otpEmail)) ==> unchanged(app) && reply == Redirect("/", SeeOther)
    ensures Present(old(app.otpEmail)) ==>
      match Accept(old(app.otpCodes), old(app.otpEmail).value, code, now)
      case None =>
        unchanged(app) && reply == OtpPage(InvalidOrExpired)
      case Some(i) =>
        && app.otpCodes == Consume(old(app.otpCodes), i)
        && app.otpEmail == None
        && app.userEmail == old(app.otpEmail)
        && app.users == old(app.users) && app.tasks == old(app.tasks)
        && reply == Redirect("/dashboard", SeeOther)
  {
    assert EnteredCode(code[0..1], code[1..2], code[2..3], code[3..4], code[4..5], code[5..6]) == code;
    reply := app.VerifyOtp(code[0..1], code[1..2], code[2..3], code[3..4], code[4..5], code[5..6], now);
  }

  /** A browser that registers `email` holds the `otp_email` cookie, and the table holds its one code. */
  method Registered(email: string, password: string, n: int, now: Time) returns (app: TaskTracker)
    requires InRange(n)
    ensures fresh(app) && app.Valid()
    ensures |app.users| == 1 && app.users[0].email == email && app.users[0].password == password
    ensures app.tasks == [] && app.otpCodes == Issue([], email, n, now)
    ensures app.otpEmail == Some(email) && app.userEmail == None
  {
    app := new TaskTracker();
    var reply := app.Register(email, password, n, now, true);
  }

  /** A browser that registers `email` and types in the code it was mailed ends up signed in. */
  method SignUp(email: string, password: string, n: int, now: Time) returns (app: TaskTracker)
    requires InRange(n) && email != ""
    ensures fresh(app) && app.Valid()
    ensures |app.users| == 1 && app.users[0].email == email && app.users[0].password == password
    ensures app.tasks == [] && app.userEmail == Some(email)
  {
    app := Registered(email, password, n, now);
    IssueThenAccept([], email, n, now, GenerateOtp(n), now);
    var reply := TypeCode(app, GenerateOtp(n), now);
  }

  /** The dashboard of a signed-in user who owns exactly the task `task` and nothing else exists. */
  method LookAtOneTask(app: TaskTracker, task: Task) returns (stats: Stats)
    requires app.Valid() && |app.users| == 1 && app.userEmail == Some(app.users[0].email)
    requires app.users[0].email != "" && app.tasks == [task] && task.ownerId == app.users[0].id
    ensures stats == if task.status == Pending then Stats(1, 1, 0, 0) else Stats(1, 0, 1, 100)
  {
    var view := app.DashboardView();
    assert view.value.user == app.users[0];
    assert OwnedBy(app.tasks, view.value.user.id) == [task];
    stats := view.value.stats;
  }

  /**
   * Register, verify the mailed code, look at the empty dashboard, add a
   * task, look again, complete it, look a third time.
   */
  method EndToEnd(n: int, now: Time) returns (empty: Stats, added: Stats, done: Stats)
    requires InRange(n)
    ensures empty == Stats(0, 0, 0, 0)
    ensures added == Stats(1, 1, 0, 0)
    ensures done == Stats(1, 0, 1, 100)
  {
    var app := SignUp("a@x.com", "pw", n, now);
    var view := app.DashboardView();
    empty := view.value.stats;

    var reply := app.AddTask("Write spec", Some(NewYear2030), now);
    var task := app.tasks[0];
    added := LookAtOneTask(app, task);

    reply := app.CompleteTask(task.id);
    assert app.tasks == [task.(status := Completed)];
    done := LookAtOneTask(app, task.(status := Completed));
  }

  /**
   * A code works once: the second attempt has no `otp_email` cookie, and a
   * client that sends the old cookie back anyway finds the row gone.
   */
  method ReplayRejected(email: string, password: string, n: int, now: Time) returns (first: Reply, second: Reply, forged: Reply)
    requires InRange(n) && email != ""
    ensures first == Redirect("/dashboard", SeeOther)
    ensures second == Redirect("/", SeeOther)
    ensures forged == OtpPage(InvalidOrExpired)
  {
    var app := Registered(email, password, n, now);
    var code := GenerateOtp(n);
    ghost var issued := Issue([], email, n, now);
    IssueThenAccept([], email, n, now, code, now);
    ghost var i := Accept(issued, email, code, now).value;
    first := TypeCode(app, code, now);
    assert app.otpCodes == Consume(issued, i) && !Present(app.otpEmail);
    second := TypeCode(app, code, now);
    ConsumedCodeRejected(issued, email, code, now, now);
    forged := ResendCookie(app, email, code, now);
  }

  /** A client that sets `otp_email` itself and types `code`, which no live row holds for that email. */
  method ResendCookie(app: TaskTracker, email: string, code: string, now: Time) returns (reply: Reply)
    requires app.Valid() && email != "" && |code| == 6
    requires Accept(app.otpCodes, email, code, now).None?
    modifies app
    ensures reply == OtpPage(InvalidOrExpired)
  {
    app.otpEmail := Some(email);
    reply := TypeCode(app, code, now);
  }

  /**
   * A code is good up to and including five minutes after issue, and not a
   * second later: two fresh sign-ups, one typing the code on time, one late.
   */
  method ExpiryBoundary(email: string, password: string, n: int, issuedAt: Time) returns (late: Reply, onTime: Reply)
    requires InRange(n) && email != ""
    ensures late == OtpPage(InvalidOrExpired)
    ensures onTime == Redirect("/dashboard", SeeOther)
  {
    var code := GenerateOtp(n);
    var early := Registered(email, password, n, issuedAt);
    IssueThenAccept([], email, n, issuedAt, code, issuedAt + OtpLifetime);
    onTime := TypeCode(early, code, issuedAt + OtpLifetime);
    var tardy := Registered(email, password, n, issuedAt);
    IssueThenAccept([], email, n, issuedAt, code, issuedAt + OtpLifetime + 1);
    late := TypeCode(tardy, code, issuedAt + OtpLifetime + 1);
  }

  /** A wrong password issues no code and leaves the session as it was. */
  method WrongPassword(n: int, m: int, now: Time) returns (reply: Reply, rows: seq<OtpCode>)
    requires InRange(n) && InRange(m)
    ensures reply == Redirect(InvalidCredentials, SeeOther)
    ensures rows == Issue([], "c@x.com", n, now)
  {
    var app := new TaskTracker();
    reply := app.Register("c@x.com", "right", n, now, true);
    reply := app.Login("c@x.com", "wrong", m, now + 10, true);
    rows := app.otpCodes;
  }
}
