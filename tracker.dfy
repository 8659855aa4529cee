/**
 * The route handlers of `app/main.py` as methods of one object that holds
 * the database (the three tables and the next free ids) and the two
 * cookies the browser sends back (`otp_email`, `user_email`).
 *
 * The session moves from anonymous, through OTP-pending (`otp_email` set
 * by `login` or `register`), to authenticated (`user_email` set by
 * `verify_otp`), and back with `logout`.
 */
module Tracker {
  import opened Wrappers
  import opened Models
  import opened Queries
  import opened Otp
  import opened Dashboard

  /** `status_code=303`, passed explicitly by most handlers. */
  const SeeOther: int := 303
  /** The default status of a `RedirectResponse` built without one. */
  const TemporaryRedirect: int := 307

  const InvalidCredentials: string := "/?error=Invalid Credentials"
  const EmailRegistered: string := "/?error=Email already registered"
  const InvalidOrExpired: string := "Invalid or expired OTP"

  /** What a handler answers: a redirect, the OTP page with an error, or an uncaught exception. */
  datatype Reply = Redirect(location: string, status: int) | OtpPage(error: string) | ServerError

  /** The due date `add_task` stores: the parsed date, or the current time when `strptime` fails. */
  function DueDate(parsed: Option<Time>, now: Time): (due: Time)
    ensures parsed.Some? ==> due == parsed.value
    ensures parsed.None? ==> due == now
  {
    parsed.GetOr(now)
  }

  /** The code `verify_otp` checks: the six form fields joined in order. */
  function EnteredCode(otp0: string, otp1: string, otp2: string, otp3: string, otp4: string, otp5: string): (code: string)
    ensures |code| == |otp0| + |otp1| + |otp2| + |otp3| + |otp4| + |otp5|
    ensures code[..|otp0|] == otp0
    ensures |otp0| == |otp1| == |otp2| == |otp3| == |otp4| == |otp5| == 1 ==>
      code == [otp0[0], otp1[0], otp2[0], otp3[0], otp4[0], otp5[0]]
  {
    otp0 + otp1 + otp2 + otp3 + otp4 + otp5
  }

  class TaskTracker {
    var users: seq<User>
    var tasks: seq<Task>
    var otpCodes: seq<OtpCode>
    var nextUserId: nat
    var nextTaskId: nat
    /** The `otp_email` cookie: the email that passed the password check. */
    var otpEmail: Option<string>
    /** The `user_email` cookie: the email that passed the code check. */
    var userEmail: Option<string>

    ghost predicate Valid()
      reads this`users, this`tasks, this`otpCodes, this`nextUserId, this`nextTaskId
    {
      ValidStore(users, tasks, nextUserId, nextTaskId) && OneRowPerEmail(otpCodes)
    }

    /** An empty database and a browser with no cookies. */
    constructor ()
      ensures Valid()
      ensures users == [] && tasks == [] && otpCodes == []
      ensures otpEmail == None && userEmail == None
    {
      users, tasks, otpCodes := [], [], [];
      nextUserId, nextTaskId := 1, 1;
      otpEmail, userEmail := None, None;
    }

    /**
     * `save_otp(email)` with random draw `n` and clock `now`. The mail is
     * sent after the row is committed; `delivered` says whether sending
     * succeeded, and the result reports it.
     */
    method SaveOtp(email: string, n: int, now: Time, delivered: bool) returns (sent: bool)
      requires Valid() && InRange(n)
      modifies this`otpCodes
      ensures Valid()
      ensures otpCodes == Issue(old(otpCodes), email, n, now)
      ensures sent == delivered
    {
      otpCodes := WithoutRowsFor(otpCodes, email);
      var otp := GenerateOtp(n);
      otpCodes := otpCodes + [OtpCode(email, otp, now + OtpLifetime)];
      assert otpCodes == Issue(old(otpCodes), email, n, now);
      sent := delivered;
    }

    /**
     * `login`: a known email with exactly the stored password gets a new
     * code and the `otp_email` cookie; anything else changes nothing.
     */
    method Login(email: string, password: string, n: int, now: Time, delivered: bool) returns (reply: Reply)
      requires Valid() && InRange(n)
      modifies this`otpCodes, this`otpEmail
      ensures Valid()
      ensures
        var found := FindUserByEmail(users, email);
        if found.None? || found.value.password != password then
          && unchanged(this)
          && reply == Redirect(InvalidCredentials, SeeOther)
        else
          && otpCodes == Issue(old(otpCodes), email, n, now)
          && (delivered ==> otpEmail == Some(email) && reply == Redirect("/otp", SeeOther))
          && (!delivered ==> otpEmail == old(otpEmail) && reply == ServerError)
    {
      var user := FindUserByEmail(users, email);
      if user.None? || user.value.password != password {
        return Redirect(InvalidCredentials, SeeOther);
      }
      var sent := SaveOtp(email, n, now, delivered);
      if !sent {
        return ServerError;
      }
      otpEmail := Some(email);
      reply := Redirect("/otp", SeeOther);
    }

    /**
     * `register`: a new email is stored with its password verbatim and is
     * sent a code, as in `login`; an email already present changes nothing.
     */
    method Register(email: string, password: string, n: int, now: Time, delivered: bool) returns (reply: Reply)
      requires Valid() && InRange(n)
      modifies this`users, this`nextUserId, this`otpCodes, this`otpEmail
      ensures Valid()
      ensures
        if FindUserByEmail(old(users), email).Some? then
          && unchanged(this)
          && reply == Redirect(EmailRegistered, SeeOther)
        else
          && users == old(users) + [User(old(nextUserId), email, password)]
          && nextUserId == old(nextUserId) + 1
          && otpCodes == Issue(old(otpCodes), email, n, now)
          && (delivered ==> otpEmail == Some(email) && reply == Redirect("/otp", SeeOther))
          && (!delivered ==> otpEmail == old(otpEmail) && reply == ServerError)
    {
      if FindUserByEmail(users, email).Some? {
        return Redirect(EmailRegistered, SeeOther);
      }
      var user := User(nextUserId, email, password);
      AddUserKeepsStore(users, tasks, nextUserId, nextTaskId, user);
      users := users + [user];
      nextUserId := nextUserId + 1;
      var sent := SaveOtp(email, n, now, delivered);
      if !sent {
        return ServerError;
      }
      otpEmail := Some(email);
      reply := Redirect("/otp", SeeOther);
    }

    /**
     * `verify_otp`: with the `otp_email` cookie set, the first row for that
     * email holding the entered code and not yet expired is deleted, and the
     * cookies move from `otp_email` to `user_email`. Without the cookie, or
     * without such a row, nothing changes.
     */
    method VerifyOtp(otp0: string, otp1: string, otp2: string, otp3: string, otp4: string, otp5: string, now: Time)
      returns (reply: Reply)
      requires Valid()
      modifies this`otpCodes, this`otpEmail, this`userEmail
      ensures Valid()
      ensures !Present(old(otpEmail)) ==> unchanged(this) && reply == Redirect("/", SeeOther)
      ensures Present(old(otpEmail)) ==>
        match Accept(old(otpCodes), old(otpEmail).value, EnteredCode(otp0, otp1, otp2, otp3, otp4, otp5), now)
        case None =>
          unchanged(this) && reply == OtpPage(InvalidOrExpired)
        case Some(i) =>
          && otpCodes == Consume(old(otpCodes), i)
          && otpEmail == None
          && userEmail == old(otpEmail)
          && reply == Redirect("/dashboard", SeeOther)
    {
      var entered := EnteredCode(otp0, otp1, otp2, otp3, otp4, otp5);
      if !Present(otpEmail) {
        return Redirect("/", SeeOther);
      }
      var email := otpEmail.value;
      var record := Accept(otpCodes, email, entered, now);
      if record.None? {
        return OtpPage(InvalidOrExpired);
      }
      otpCodes := Consume(otpCodes, record.value);
      otpEmail := None;
      userEmail := Some(email);
      reply := Redirect("/dashboard", SeeOther);
    }

    /** `logout`: forgets `user_email`; `otp_email` and the database stay as they are. */
    method Logout() returns (reply: Reply)
      requires Valid()
      modifies this`userEmail
      ensures Valid()
      ensures userEmail == None
      ensures reply == Redirect("/", SeeOther)
    {
      userEmail := None;
      reply := Redirect("/", SeeOther);
    }

    /** The dashboard page for the current cookies. */
    function DashboardView(): (r: Option<View>)
      reads this
      ensures r.None? <==> CurrentUser(users, userEmail).None?
      ensures r.Some? ==> Some(r.value.user) == CurrentUser(users, userEmail)
      ensures r.Some? ==> SortedByDue(r.value.tasks)
      ensures r.Some? ==> multiset(r.value.tasks) == multiset(OwnedBy(tasks, r.value.user.id))
      ensures r.Some? ==> r.value.stats == StatsOf(OwnedBy(tasks, r.value.user.id))
    {
      Render(users, tasks, userEmail)
    }

    /**
     * `add_task`: the signed-in user gets one more task, Pending, due at the
     * parsed date or else now; without a signed-in user nothing changes.
     */
    method AddTask(title: string, parsedDue: Option<Time>, now: Time) returns (reply: Reply)
      requires Valid()
      modifies this`tasks, this`nextTaskId
      ensures Valid()
      ensures
        match CurrentUser(users, userEmail)
        case None =>
          unchanged(this) && reply == Redirect("/", TemporaryRedirect)
        case Some(u) =>
          && tasks == old(tasks) + [Task(old(nextTaskId), title, DefaultStatus, DueDate(parsedDue, now), now, u.id)]
          && nextTaskId == old(nextTaskId) + 1
          && reply == Redirect("/dashboard", SeeOther)
    {
      var user := CurrentUser(users, userEmail);
      if user.None? {
        return Redirect("/", TemporaryRedirect);
      }
      var task := Task(nextTaskId, title, DefaultStatus, DueDate(parsedDue, now), now, user.value.id);
      assert user.value.id in UserIds(users) by {
        var k :| 0 <= k < |users| && users[k] == user.value;
      }
      AddTaskKeepsStore(users, tasks, nextUserId, nextTaskId, task);
      tasks := tasks + [task];
      nextTaskId := nextTaskId + 1;
      reply := Redirect("/dashboard", SeeOther);
    }

    /**
     * `complete_task(id)`: the task with that id, whoever owns it, becomes
     * Completed; an unknown id changes nothing. The cookies are not read.
     */
    method CompleteTask(taskId: int) returns (reply: Reply)
      requires Valid()
      modifies this`tasks
      ensures Valid()
      ensures tasks == MarkCompleted(old(tasks), taskId)
      ensures reply == Redirect("/dashboard", SeeOther)
    {
      var i := FindTask(tasks, taskId);
      if i.Some? {
        tasks := tasks[i.value := tasks[i.value].(status := Completed)];
      }
      assert tasks == MarkCompleted(old(tasks), taskId);
      MarkCompletedKeepsStore(users, old(tasks), nextUserId, nextTaskId, taskId);
      reply := Redirect("/dashboard", SeeOther);
    }

    /**
     * `delete_task(id)`: the task with that id, whoever owns it, is removed;
     * an unknown id changes nothing. The cookies are not read.
     */
    method DeleteTask(taskId: int) returns (reply: Reply)
      requires Valid()
      modifies this`tasks
      ensures Valid()
      ensures tasks == RemoveTask(old(tasks), taskId)
      ensures reply == Redirect("/dashboard", SeeOther)
    {
      var i := FindTask(tasks, taskId);
      if i.Some? {
        tasks := tasks[..i.value] + tasks[i.value + 1..];
      }
      assert tasks == RemoveTask(old(tasks), taskId);
      RemoveTaskKeepsStore(users, old(tasks), nextUserId, nextTaskId, taskId);
      reply := Redirect("/dashboard", SeeOther);
    }
  }
}
