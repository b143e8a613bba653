/**
 * The storefront's account forms: the client-side validation of the user
 * data entered to register or sign in, and the message shown for an error
 * reply of the user service.
 */
module AccountForms {
  import opened Wrappers
  import opened JsText

  /** The four validation failures, in the order they are checked. */
  datatype FormError = ShortUserId | ShortPassword | ShortName | ShortTenantId {

    /** The position of the check in the checking order. */
    function Rank(): nat {
      match this
      case ShortUserId => 0
      case ShortPassword => 1
      case ShortName => 2
      case ShortTenantId => 3
    }

    /** The message shown for the failure. */
    function Message(): string {
      match this
      case ShortUserId => "El ID de usuario debe tener al menos 3 caracteres"
      case ShortPassword => "La contraseña debe tener al menos 6 caracteres"
      case ShortName => "El nombre debe tener al menos 2 caracteres"
      case ShortTenantId => "El ID de organización debe tener al menos 2 caracteres"
    }
  }

  /** The four conditions the form must meet; the name and the organisation are optional fields. */
  predicate UserIdOk(userId: string) { |Trim(userId)| >= 3 }
  predicate PasswordOk(password: string) { |password| >= 6 }
  predicate OptionalOk(field: Option<string>) { field.None? || |Trim(field.value)| >= 2 }

  predicate ValidUserData(userId: string, password: string, name: Option<string>, tenantId: Option<string>) {
    UserIdOk(userId) && PasswordOk(password) && OptionalOk(name) && OptionalOk(tenantId)
  }

  /**
   * `validateUserData`: one failure per unmet condition, in the checking
   * order, none exactly when the data is valid; `messages` is the list of
   * strings the form shows, one per failure.
   */
  method ValidateUserData(userId: string, password: string, name: Option<string>, tenantId: Option<string>)
    returns (errors: seq<FormError>, messages: seq<string>)
    ensures messages == Messages(errors)
    ensures errors == [] <==> ValidUserData(userId, password, name, tenantId)
    ensures ShortUserId in errors <==> !UserIdOk(userId)
    ensures ShortPassword in errors <==> !PasswordOk(password)
    ensures ShortName in errors <==> !OptionalOk(name)
    ensures ShortTenantId in errors <==> !OptionalOk(tenantId)
    ensures InCheckingOrder(errors)
  {
    var badUserId := userId == "" || |Trim(userId)| < 3;
    var badPassword := password == "" || |password| < 6;
    var badName := name.Some? && (name.value == "" || |Trim(name.value)| < 2);
    var badTenant := tenantId.Some? && (tenantId.value == "" || |Trim(tenantId.value)| < 2);
    assert badUserId == !UserIdOk(userId) && badPassword == !PasswordOk(password);
    assert badName == !OptionalOk(name) && badTenant == !OptionalOk(tenantId);
    errors := [];
    errors := PushIf(errors, badUserId, ShortUserId);
    errors := PushIf(errors, badPassword, ShortPassword);
    errors := PushIf(errors, badName, ShortName);
    errors := PushIf(errors, badTenant, ShortTenantId);
    messages := Messages(errors);
  }

  /** `if (failed) errors.push(message)`, for the check of rank `e.Rank()`. */
  method PushIf(errors: seq<FormError>, failed: bool, e: FormError) returns (r: seq<FormError>)
    requires InCheckingOrder(errors) && RanksBelow(errors, e.Rank())
    ensures InCheckingOrder(r) && RanksBelow(r, e.Rank() + 1)
    ensures e in r <==> failed
    ensures forall x :: x != e ==> (x in r <==> x in errors)
    ensures r == [] <==> errors == [] && !failed
  {
    if failed {
      r := errors + [e];
    } else {
      r := errors;
    }
  }

  predicate RanksBelow(errors: seq<FormError>, k: nat) {
    forall i :: 0 <= i < |errors| ==> errors[i].Rank() < k
  }

  /** Strictly increasing ranks: each failure once, in the checking order. */
  predicate InCheckingOrder(errors: seq<FormError>) {
    forall i, j :: 0 <= i < j < |errors| ==> errors[i].Rank() < errors[j].Rank()
  }

  /** The messages shown for a list of failures. */
  function Messages(errors: seq<FormError>): (r: seq<string>)
    ensures |r| == |errors|
    ensures forall i {:trigger r[i]} :: 0 <= i < |errors| ==> r[i] == errors[i].Message()
  {
    if errors == [] then [] else [errors[0].Message()] + Messages(errors[1..])
  }

  // ---------------------------------------------------------------------------
  // Error messages

  /** The JSON body of an error reply: its optional `mensaje` and `error` fields. */
  datatype ErrorBody = ErrorBody(mensaje: Option<string>, error: Option<string>)

  /** JavaScript truthiness of an optional string. */
  predicate Given(field: Option<string>) {
    field.Some? && field.value != ""
  }

  const WrongCredentials := "Credenciales incorrectas. Verifica tu usuario y contraseña."
  const AccessDenied := "Acceso denegado. No tienes permisos para realizar esta acción."
  const UserNotFound := "Usuario no encontrado. Verifica que el usuario esté registrado."
  const UserExists := "El usuario ya existe. Intenta con un ID de usuario diferente."
  const MalformedFields := "Datos incorrectos. Algunos campos no tienen el formato válido."
  const ServerFailure := "Error interno del servidor. Intenta nuevamente en unos minutos."
  const ServiceUnavailable := "Servicio no disponible temporalmente. Intenta más tarde."

  /** The status codes with a message of their own, whatever the body says. */
  function FixedMessage(status: int): Option<string> {
    if status == 401 then Some(WrongCredentials)
    else if status == 403 then Some(AccessDenied)
    else if status == 404 then Some(UserNotFound)
    else if status == 409 then Some(UserExists)
    else if status == 422 then Some(MalformedFields)
    else if status == 500 then Some(ServerFailure)
    else if status == 503 then Some(ServiceUnavailable)
    else None
  }

  const BadRequestDefault := "Datos inválidos. Verifica la información enviada."
  const UnexpectedDefault := "Error inesperado. Contacta al soporte técnico."

  /** `getErrorMessage`. */
  function ErrorMessage(status: int, body: ErrorBody): (m: string)
    ensures |m| > 0
    ensures FixedMessage(status).Some? ==> m == FixedMessage(status).value
    ensures status == 400 ==> m == (if Given(body.mensaje) then body.mensaje.value else BadRequestDefault)
    ensures status != 400 && FixedMessage(status).None? ==>
              m == (if Given(body.mensaje) then body.mensaje.value
                    else if Given(body.error) then body.error.value
                    else UnexpectedDefault)
  {
    if status == 400 then (if Given(body.mensaje) then body.mensaje.value else BadRequestDefault)
    else if FixedMessage(status).Some? then FixedMessage(status).value
    else if Given(body.mensaje) then body.mensaje.value
    else if Given(body.error) then body.error.value
    else UnexpectedDefault
  }

  /** For the listed codes the reply's body is ignored. */
  lemma FixedCodesIgnoreBody(status: int, b1: ErrorBody, b2: ErrorBody)
    requires status in {401, 403, 404, 409, 422, 500, 503}
    ensures ErrorMessage(status, b1) == ErrorMessage(status, b2)
  {
  }

  /** For 400 and for every unlisted code, a non-empty `mensaje` of the server wins. */
  lemma ServerMessagePreferred(status: int, body: ErrorBody)
    requires status !in {401, 403, 404, 409, 422, 500, 503}
    requires Given(body.mensaje)
    ensures ErrorMessage(status, body) == body.mensaje.value
  {
  }

  /** A 400 never shows the body's `error` field, unlike an unlisted code. */
  lemma BadRequestIgnoresError(body: ErrorBody, error: string)
    requires !Given(body.mensaje) && error != ""
    ensures ErrorMessage(400, body.(error := Some(error))) == BadRequestDefault
    ensures ErrorMessage(418, body.(error := Some(error))) == error
  {
  }
}
