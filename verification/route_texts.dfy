/** The fixed texts of the backend translator (sevdo_backend/backend_compiler.py):
    the nine endpoint snippets of `mapping` and the shared `auth_imports`
    preamble. Every snippet is rebuilt as its leading text, its decorator line
    `@app.<verb>("<path>")` and the rest of its body. The long texts are kept as
    concatenations of short pieces so that the absence of the character '@'
    can be checked one piece at a time. */
module RouteTexts {
  import opened Wrappers
  import opened Text

  /** The keys of `mapping`, one per generated endpoint. */
  datatype Route = Register | Login | Logout | Update | Me | Refresh | LogoutAll | Sessions | Revoke

  /** The keys in the order of the dictionary literal, which is the order
      in which Python iterates the dictionary. */
  const Routes: seq<Route> := [Register, Login, Logout, Update, Me, Refresh, LogoutAll, Sessions, Revoke]

  /** The one-letter token naming each endpoint. */
  function Token(r: Route): (t: string)
    ensures |t| == 1
  {
    match r
    case Register => "r"
    case Login => "l"
    case Logout => "o"
    case Update => "u"
    case Me => "m"
    case Refresh => "t"
    case LogoutAll => "a"
    case Sessions => "s"
    case Revoke => "k"
  }

  /** `t in mapping`, as the route `t` names. */
  function RouteOf(t: string): (r: Option<Route>)
    ensures r.Some? ==> Token(r.value) == t
    ensures r.None? ==> forall q :: Token(q) != t
  {
    if t == "r" then Some(Register)
    else if t == "l" then Some(Login)
    else if t == "o" then Some(Logout)
    else if t == "u" then Some(Update)
    else if t == "m" then Some(Me)
    else if t == "t" then Some(Refresh)
    else if t == "a" then Some(LogoutAll)
    else if t == "s" then Some(Sessions)
    else if t == "k" then Some(Revoke)
    else None
  }

  /** HTTP method of the decorator, as written in the snippet (lower case). */
  function Verb(r: Route): string {
    match r
    case Register => "post"
    case Login => "post"
    case Logout => "post"
    case Update => "post"
    case Me => "get"
    case Refresh => "post"
    case LogoutAll => "post"
    case Sessions => "get"
    case Revoke => "delete"
  }

  function Path(r: Route): string {
    match r
    case Register => "/register"
    case Login => "/login"
    case Logout => "/logout"
    case Update => "/update"
    case Me => "/me"
    case Refresh => "/refresh"
    case LogoutAll => "/logout-all"
    case Sessions => "/sessions"
    case Revoke => "/sessions/{id}"
  }

  /** The text before the decorator: the first two snippets start with a blank line. */
  function Lead(r: Route): string {
    if r == Register || r == Login then "\n" else ""
  }

  /** `@app.<verb>("<path>")` */
  function Decorator(verb: string, path: string): string {
    "@app." + verb + "(\"" + path + "\")"
  }

  /** The characters of the paths in the decorator lines. */
  predicate PathChar(c: char) {
    IsLower(c) || c == '/' || c == '-' || c == '{' || c == '}'
  }

  /** The translator's texts. The preamble and each part of a snippet (the
      text before the decorator line, the verb and path of that line, and the
      body after it) are kept apart so that the translator can be studied for
      any texts of the right shape; `Mapping` holds the actual ones. */
  datatype Texts = Texts(authHead: string, authTail: string, lead: Route -> string, verb: Route -> string,
                         path: Route -> string, body: Route -> string) {
    /** `imports["auth_imports"]` */
    function AuthImports(): string {
      authHead + "@" + authTail
    }

    /** A route's decorator line. */
    function Sig(r: Route): string {
      Decorator(verb(r), path(r))
    }

    /** `mapping[Token(r)]` */
    function Snippet(r: Route): string {
      lead(r) + Sig(r) + body(r)
    }

    /** The shape the reverse lookup depends on. */
    predicate WellFormed() {
      PreambleShaped() && SnippetsShaped() && DecoratorsShaped()
    }

    /** The preamble has a single '@', followed by `{`. */
    predicate PreambleShaped() {
      '@' !in authHead && '@' !in authTail && |authTail| > 0 && authTail[0] == '{'
    }

    /** No text before a decorator holds an '@'; every body starts with the
        newline that ends the decorator line and holds no '@'. */
    predicate SnippetsShaped() {
      forall r :: '@' !in lead(r) && |body(r)| > 0 && body(r)[0] == '\n' && '@' !in body(r)
    }

    /** Verbs are non-empty and lower-case, paths are made of path
        characters, and no two routes share a path. */
    predicate DecoratorsShaped() {
      && (forall r :: |verb(r)| > 0)
      && (forall r, i :: 0 <= i < |verb(r)| ==> IsLower(verb(r)[i]))
      && (forall r, i :: 0 <= i < |path(r)| ==> PathChar(path(r)[i]))
      && (forall a, b :: path(a) == path(b) ==> a == b)
    }
  }

  /** The texts of `imports` and `mapping` in sevdo_backend/backend_compiler.py. */
  const Mapping: Texts := Texts(AuthHead, AuthTail, Lead, Verb, Path, Body)

  lemma MappingWellFormed()
    ensures Mapping.WellFormed()
  {
    MappingPreambleShaped();
    MappingSnippetsShaped();
    MappingDecoratorsShaped();
  }

  lemma MappingDecoratorsShaped()
    ensures Mapping.DecoratorsShaped()
  {
    forall r: Route
      ensures |Verb(r)| > 0 && forall i :: 0 <= i < |Verb(r)| ==> IsLower(Verb(r)[i])
      ensures forall i :: 0 <= i < |Path(r)| ==> PathChar(Path(r)[i])
    {
      VerbLower(Verb(r));
      PathChars(r);
    }
    forall a: Route, b: Route | Path(a) == Path(b)
      ensures a == b
    {
      PathInjective(a, b);
    }
  }

  lemma VerbLower(v: string)
    requires v == "post" || v == "get" || v == "delete"
    ensures |v| > 0 && forall i :: 0 <= i < |v| ==> IsLower(v[i])
  {
  }

  lemma PathChars(r: Route)
    ensures forall i :: 0 <= i < |Path(r)| ==> PathChar(Path(r)[i])
  {
    match r
    case Register =>
    case Login =>
    case Logout =>
    case Update =>
    case Me =>
    case Refresh =>
    case LogoutAll =>
    case Sessions =>
    case Revoke =>
  }

  /** Distinct routes have distinct paths. */
  lemma PathInjective(a: Route, b: Route)
    requires Path(a) == Path(b)
    ensures a == b
  {
  }

  lemma MappingPreambleShaped()
    ensures Mapping.PreambleShaped()
  {
    AuthHeadClean();
    AuthTailClean();
    AuthTailStart();
  }

  lemma MappingSnippetsShaped()
    ensures Mapping.SnippetsShaped()
  {
    forall r: Route
      ensures '@' !in Lead(r) && |Body(r)| > 0 && Body(r)[0] == '\n' && '@' !in Body(r)
    {
      BodyClean(r);
    }
  }

  /** The snippet text after the decorator line, starting at its newline. */
  function Body(r: Route): string {
    match r
    case Register => RegisterBody0 + RegisterBody1 + RegisterBody2 + RegisterBody3
    case Login => LoginBody0 + LoginBody1 + LoginBody2 + LoginBody3 + LoginBody4 + LoginBody5 + LoginBody6
    case Logout => LogoutBody0 + LogoutBody1 + LogoutBody2
    case Update => UpdateBody0 + UpdateBody1 + UpdateBody2 + UpdateBody3 + UpdateBody4
    case Me => MeBody0 + MeBody1
    case Refresh => RefreshBody0 + RefreshBody1 + RefreshBody2 + RefreshBody3 + RefreshBody4
    case LogoutAll => LogoutAllBody0 + LogoutAllBody1 + LogoutAllBody2 + LogoutAllBody3
    case Sessions => SessionsBody0 + SessionsBody1 + SessionsBody2 + SessionsBody3
    case Revoke => RevokeBody0 + RevokeBody1 + RevokeBody2 + RevokeBody3 + RevokeBody4 + RevokeBody5
  }

  /** `auth_imports` is `AuthHead + "@" + AuthTail`: its only '@' sits inside
      the database URL, in front of `{DB_HOST}`. */

  const AuthHead: string := AuthHeadPart0 + AuthHeadPart1

  lemma AuthHeadClean()
    ensures '@' !in AuthHead
  {
    AuthHeadPart0Clean();
    AuthHeadPart1Clean();
  }

  const AuthHeadPart0: string :=
    AuthHead0 +
    AuthHead1 +
    AuthHead2 +
    AuthHead3 +
    AuthHead4 +
    AuthHead5 +
    AuthHead6

  lemma AuthHeadPart0Clean()
    ensures '@' !in AuthHeadPart0
  {
    AuthHead0Clean();
    AuthHead1Clean();
    AuthHead2Clean();
    AuthHead3Clean();
    AuthHead4Clean();
    AuthHead5Clean();
    AuthHead6Clean();
  }

  const AuthHeadPart1: string :=
    AuthHead7 +
    AuthHead8 +
    AuthHead9 +
    AuthHead10 +
    AuthHead11 +
    AuthHead12

  lemma AuthHeadPart1Clean()
    ensures '@' !in AuthHeadPart1
  {
    AuthHead7Clean();
    AuthHead8Clean();
    AuthHead9Clean();
    AuthHead10Clean();
    AuthHead11Clean();
    AuthHead12Clean();
  }

  const AuthTail: string := AuthTailPart0 + AuthTailPart1 + AuthTailPart2 + AuthTailPart3 + AuthTailPart4

  lemma AuthTailClean()
    ensures '@' !in AuthTail
  {
    AuthTailPart0Clean();
    AuthTailPart1Clean();
    AuthTailPart2Clean();
    AuthTailPart3Clean();
    AuthTailPart4Clean();
  }

  const AuthTailPart0: string :=
    AuthTail0 +
    AuthTail1 +
    AuthTail2 +
    AuthTail3 +
    AuthTail4 +
    AuthTail5 +
    AuthTail6

  lemma AuthTailPart0Clean()
    ensures '@' !in AuthTailPart0
  {
    AuthTail0Clean();
    AuthTail1Clean();
    AuthTail2Clean();
    AuthTail3Clean();
    AuthTail4Clean();
    AuthTail5Clean();
    AuthTail6Clean();
  }

  const AuthTailPart1: string :=
    AuthTail7 +
    AuthTail8 +
    AuthTail9 +
    AuthTail10 +
    AuthTail11 +
    AuthTail12 +
    AuthTail13

  lemma AuthTailPart1Clean()
    ensures '@' !in AuthTailPart1
  {
    AuthTail7Clean();
    AuthTail8Clean();
    AuthTail9Clean();
    AuthTail10Clean();
    AuthTail11Clean();
    AuthTail12Clean();
    AuthTail13Clean();
  }

  const AuthTailPart2: string :=
    AuthTail14 +
    AuthTail15 +
    AuthTail16 +
    AuthTail17 +
    AuthTail18 +
    AuthTail19 +
    AuthTail20

  lemma AuthTailPart2Clean()
    ensures '@' !in AuthTailPart2
  {
    AuthTail14Clean();
    AuthTail15Clean();
    AuthTail16Clean();
    AuthTail17Clean();
    AuthTail18Clean();
    AuthTail19Clean();
    AuthTail20Clean();
  }

  const AuthTailPart3: string :=
    AuthTail21 +
    AuthTail22 +
    AuthTail23 +
    AuthTail24 +
    AuthTail25 +
    AuthTail26 +
    AuthTail27

  lemma AuthTailPart3Clean()
    ensures '@' !in AuthTailPart3
  {
    AuthTail21Clean();
    AuthTail22Clean();
    AuthTail23Clean();
    AuthTail24Clean();
    AuthTail25Clean();
    AuthTail26Clean();
    AuthTail27Clean();
  }

  const AuthTailPart4: string :=
    AuthTail28 +
    AuthTail29 +
    AuthTail30 +
    AuthTail31 +
    AuthTail32

  lemma AuthTailPart4Clean()
    ensures '@' !in AuthTailPart4
  {
    AuthTail28Clean();
    AuthTail29Clean();
    AuthTail30Clean();
    AuthTail31Clean();
    AuthTail32Clean();
  }

  lemma AuthTailStart()
    ensures |AuthTail| > 0 && AuthTail[0] == '{'
  {
    assert AuthTail0[0] == '{';
    assert AuthTailPart0[0] == '{';
  }

  /** Every body begins with the newline that ends the decorator line and holds no '@'. */
  lemma BodyClean(r: Route)
    ensures |Body(r)| > 0 && Body(r)[0] == '\n' && '@' !in Body(r)
  {
    match r
    case Register => RegisterBodyClean();
    case Login => LoginBodyClean();
    case Logout => LogoutBodyClean();
    case Update => UpdateBodyClean();
    case Me => MeBodyClean();
    case Refresh => RefreshBodyClean();
    case LogoutAll => LogoutAllBodyClean();
    case Sessions => SessionsBodyClean();
    case Revoke => RevokeBodyClean();
  }

  lemma RegisterBodyClean()
    ensures |Body(Register)| > 0 && Body(Register)[0] == '\n' && '@' !in Body(Register)
  {
    RegisterBody0Clean();
    RegisterBody1Clean();
    RegisterBody2Clean();
    RegisterBody3Clean();
  }

  lemma LoginBodyClean()
    ensures |Body(Login)| > 0 && Body(Login)[0] == '\n' && '@' !in Body(Login)
  {
    LoginBody0Clean();
    LoginBody1Clean();
    LoginBody2Clean();
    LoginBody3Clean();
    LoginBody4Clean();
    LoginBody5Clean();
    LoginBody6Clean();
  }

  lemma LogoutBodyClean()
    ensures |Body(Logout)| > 0 && Body(Logout)[0] == '\n' && '@' !in Body(Logout)
  {
    LogoutBody0Clean();
    LogoutBody1Clean();
    LogoutBody2Clean();
  }

  lemma UpdateBodyClean()
    ensures |Body(Update)| > 0 && Body(Update)[0] == '\n' && '@' !in Body(Update)
  {
    UpdateBody0Clean();
    UpdateBody1Clean();
    UpdateBody2Clean();
    UpdateBody3Clean();
    UpdateBody4Clean();
  }

  lemma MeBodyClean()
    ensures |Body(Me)| > 0 && Body(Me)[0] == '\n' && '@' !in Body(Me)
  {
    MeBody0Clean();
    MeBody1Clean();
  }

  lemma RefreshBodyClean()
    ensures |Body(Refresh)| > 0 && Body(Refresh)[0] == '\n' && '@' !in Body(Refresh)
  {
    RefreshBody0Clean();
    RefreshBody1Clean();
    RefreshBody2Clean();
    RefreshBody3Clean();
    RefreshBody4Clean();
  }

  lemma LogoutAllBodyClean()
    ensures |Body(LogoutAll)| > 0 && Body(LogoutAll)[0] == '\n' && '@' !in Body(LogoutAll)
  {
    LogoutAllBody0Clean();
    LogoutAllBody1Clean();
    LogoutAllBody2Clean();
    LogoutAllBody3Clean();
  }

  lemma SessionsBodyClean()
    ensures |Body(Sessions)| > 0 && Body(Sessions)[0] == '\n' && '@' !in Body(Sessions)
  {
    SessionsBody0Clean();
    SessionsBody1Clean();
    SessionsBody2Clean();
    SessionsBody3Clean();
  }

  lemma RevokeBodyClean()
    ensures |Body(Revoke)| > 0 && Body(Revoke)[0] == '\n' && '@' !in Body(Revoke)
  {
    RevokeBody0Clean();
    RevokeBody1Clean();
    RevokeBody2Clean();
    RevokeBody3Clean();
    RevokeBody4Clean();
    RevokeBody5Clean();
  }

  const AuthHead0: string :=
    "\n" +
    "from fastapi import FastAPI, D" +
    "epends, HTTPException, Header\n"
  lemma AuthHead0Clean() ensures '@' !in AuthHead0 {}

  const AuthHead1: string :=
    "from pydantic import BaseModel" +
    "\n" +
    "from passlib.context import Cr" +
    "yptContext\n"
  lemma AuthHead1Clean() ensures '@' !in AuthHead1 {}

  const AuthHead2: string :=
    "from sqlalchemy import create_" +
    "engine, Column, Integer, Strin" +
    "g, DateTime, ForeignKey\n"
  lemma AuthHead2Clean() ensures '@' !in AuthHead2 {}

  const AuthHead3: string :=
    "from sqlalchemy.orm import ses" +
    "sionmaker, declarative_base, S" +
    "ession\n"
  lemma AuthHead3Clean() ensures '@' !in AuthHead3 {}

  const AuthHead4: string :=
    "from typing import Generator, " +
    "Optional\n" +
    "from datetime import datetime," +
    " timedelta\n"
  lemma AuthHead4Clean() ensures '@' !in AuthHead4 {}

  const AuthHead5: string :=
    "import uuid\n" +
    "import os\n" +
    "from dotenv import load_dotenv" +
    "\n" +
    "\n" +
    "# FastAPI app\n"
  lemma AuthHead5Clean() ensures '@' !in AuthHead5 {}

  const AuthHead6: string :=
    "app = FastAPI(default_response" +
    "_class=ORJSONResponse)\n" +
    "\n"
  lemma AuthHead6Clean() ensures '@' !in AuthHead6 {}

  const AuthHead7: string :=
    "# Load environment variables f" +
    "rom a .env file if present\n" +
    "load_dotenv()\n"
  lemma AuthHead7Clean() ensures '@' !in AuthHead7 {}

  const AuthHead8: string :=
    "DB_USER = os.getenv(\"DB_USER\"," +
    " \"postgres\")\n"
  lemma AuthHead8Clean() ensures '@' !in AuthHead8 {}

  const AuthHead9: string :=
    "DB_PASSWORD = os.getenv(\"DB_PA" +
    "SSWORD\", \"postgres\")\n"
  lemma AuthHead9Clean() ensures '@' !in AuthHead9 {}

  const AuthHead10: string :=
    "DB_HOST = os.getenv(\"DB_HOST\"," +
    " \"localhost\")\n" +
    "DB_PORT = os.getenv(\"DB_PORT\"," +
    " \"5432\")\n"
  lemma AuthHead10Clean() ensures '@' !in AuthHead10 {}

  const AuthHead11: string :=
    "DB_NAME = os.getenv(\"DB_NAME\"," +
    " \"app_db\")\n" +
    "\n" +
    "DATABASE_URL = (\n"
  lemma AuthHead11Clean() ensures '@' !in AuthHead11 {}

  const AuthHead12: string :=
    "    f\"postgresql+psycopg2://{D" +
    "B_USER}:{DB_PASSWORD}"
  lemma AuthHead12Clean() ensures '@' !in AuthHead12 {}

  const AuthTail0: string :=
    "{DB_HOST}:{DB_PORT}/{DB_NAME}\"" +
    "\n" +
    ")\n" +
    "\n" +
    "engine = create_engine(\n" +
    "    DATABASE_URL,\n"
  lemma AuthTail0Clean() ensures '@' !in AuthTail0 {}

  const AuthTail1: string :=
    "    pool_pre_ping=True,\n" +
    "    pool_size=5,\n" +
    "    max_overflow=10,\n" +
    "    future=True,\n" +
    ")\n" +
    "\n"
  lemma AuthTail1Clean() ensures '@' !in AuthTail1 {}

  const AuthTail2: string :=
    "SessionLocal = sessionmaker(bi" +
    "nd=engine, autoflush=False, au" +
    "tocommit=False, expire_on_comm" +
    "it=False)\n"
  lemma AuthTail2Clean() ensures '@' !in AuthTail2 {}

  const AuthTail3: string :=
    "Base = declarative_base()\n" +
    "\n"
  lemma AuthTail3Clean() ensures '@' !in AuthTail3 {}

  const AuthTail4: string :=
    "pwd_context = CryptContext(sch" +
    "emes=[\"bcrypt\"], deprecated=\"a" +
    "uto\")\n" +
    "\n"
  lemma AuthTail4Clean() ensures '@' !in AuthTail4 {}

  const AuthTail5: string :=
    "def get_db() -> Generator[Sess" +
    "ion, None, None]:\n" +
    "    db = SessionLocal()\n" +
    "    try:\n"
  lemma AuthTail5Clean() ensures '@' !in AuthTail5 {}

  const AuthTail6: string :=
    "        yield db\n" +
    "    finally:\n" +
    "        db.close()\n" +
    "\n" +
    "class User(BaseModel):\n"
  lemma AuthTail6Clean() ensures '@' !in AuthTail6 {}

  const AuthTail7: string :=
    "    username: str\n" +
    "    password: str\n" +
    "\n" +
    "class UserDB(Base):\n" +
    "    __tablename__ = \"users\"\n"
  lemma AuthTail7Clean() ensures '@' !in AuthTail7 {}

  const AuthTail8: string :=
    "    id = Column(Integer, prima" +
    "ry_key=True, index=True)\n"
  lemma AuthTail8Clean() ensures '@' !in AuthTail8 {}

  const AuthTail9: string :=
    "    username = Column(String, " +
    "unique=True, index=True, nulla" +
    "ble=False)\n"
  lemma AuthTail9Clean() ensures '@' !in AuthTail9 {}

  const AuthTail10: string :=
    "    password = Column(String, " +
    "nullable=False)\n" +
    "\n" +
    "class SessionDB(Base):\n"
  lemma AuthTail10Clean() ensures '@' !in AuthTail10 {}

  const AuthTail11: string :=
    "    __tablename__ = \"sessions\"" +
    "\n" +
    "    id = Column(String, primar" +
    "y_key=True, index=True)\n"
  lemma AuthTail11Clean() ensures '@' !in AuthTail11 {}

  const AuthTail12: string :=
    "    user_id = Column(Integer, " +
    "ForeignKey(\"users.id\"), nullab" +
    "le=False)\n"
  lemma AuthTail12Clean() ensures '@' !in AuthTail12 {}

  const AuthTail13: string :=
    "    expiry = Column(DateTime, " +
    "nullable=False)\n" +
    "\n"
  lemma AuthTail13Clean() ensures '@' !in AuthTail13 {}

  const AuthTail14: string :=
    "# Auto-create tables on startu" +
    "p (dev convenience)\n" +
    "Base.metadata.create_all(bind=" +
    "engine)\n" +
    "\n"
  lemma AuthTail14Clean() ensures '@' !in AuthTail14 {}

  const AuthTail15: string :=
    "# ---- DB token helpers (no JW" +
    "T) ----\n" +
    "TOKEN_HEADER = \"Authorization\"" +
    "\n" +
    "\n"
  lemma AuthTail15Clean() ensures '@' !in AuthTail15 {}

  const AuthTail16: string :=
    "def extract_token(auth_header:" +
    " Optional[str]) -> str:\n" +
    "    if not auth_header:\n"
  lemma AuthTail16Clean() ensures '@' !in AuthTail16 {}

  const AuthTail17: string :=
    "        raise HTTPException(st" +
    "atus_code=401, detail=\"Missing" +
    " Authorization header\")\n"
  lemma AuthTail17Clean() ensures '@' !in AuthTail17 {}

  const AuthTail18: string :=
    "    parts = auth_header.split(" +
    ")\n" +
    "    if len(parts) == 2 and par" +
    "ts[0].lower() == \"bearer\":\n"
  lemma AuthTail18Clean() ensures '@' !in AuthTail18 {}

  const AuthTail19: string :=
    "        return parts[1]\n" +
    "    if len(parts) == 1:\n" +
    "        return parts[0]\n"
  lemma AuthTail19Clean() ensures '@' !in AuthTail19 {}

  const AuthTail20: string :=
    "    raise HTTPException(status" +
    "_code=401, detail=\"Invalid Aut" +
    "horization header\")\n" +
    "\n"
  lemma AuthTail20Clean() ensures '@' !in AuthTail20 {}

  const AuthTail21: string :=
    "def get_current_session(author" +
    "ization: Optional[str] = Heade" +
    "r(None, alias=TOKEN_HEADER),\n"
  lemma AuthTail21Clean() ensures '@' !in AuthTail21 {}

  const AuthTail22: string :=
    "                        db: Se" +
    "ssion = Depends(get_db)) -> \"S" +
    "essionDB\":\n"
  lemma AuthTail22Clean() ensures '@' !in AuthTail22 {}

  const AuthTail23: string :=
    "    token = extract_token(auth" +
    "orization)\n"
  lemma AuthTail23Clean() ensures '@' !in AuthTail23 {}

  const AuthTail24: string :=
    "    session = db.query(Session" +
    "DB).filter(SessionDB.id == tok" +
    "en).first()\n"
  lemma AuthTail24Clean() ensures '@' !in AuthTail24 {}

  const AuthTail25: string :=
    "    if not session or session." +
    "expiry < datetime.utcnow():\n"
  lemma AuthTail25Clean() ensures '@' !in AuthTail25 {}

  const AuthTail26: string :=
    "        raise HTTPException(st" +
    "atus_code=401, detail=\"Invalid" +
    " or expired session\")\n"
  lemma AuthTail26Clean() ensures '@' !in AuthTail26 {}

  const AuthTail27: string :=
    "    return session\n" +
    "\n"
  lemma AuthTail27Clean() ensures '@' !in AuthTail27 {}

  const AuthTail28: string :=
    "def get_current_user(session: " +
    "\"SessionDB\" = Depends(get_curr" +
    "ent_session),\n"
  lemma AuthTail28Clean() ensures '@' !in AuthTail28 {}

  const AuthTail29: string :=
    "                     db: Sessi" +
    "on = Depends(get_db)) -> \"User" +
    "DB\":\n"
  lemma AuthTail29Clean() ensures '@' !in AuthTail29 {}

  const AuthTail30: string :=
    "    user = db.query(UserDB).fi" +
    "lter(UserDB.id == session.user" +
    "_id).first()\n" +
    "    if not user:\n"
  lemma AuthTail30Clean() ensures '@' !in AuthTail30 {}

  const AuthTail31: string :=
    "        raise HTTPException(st" +
    "atus_code=401, detail=\"User no" +
    "t found\")\n" +
    "    return user\n"
  lemma AuthTail31Clean() ensures '@' !in AuthTail31 {}

  const AuthTail32: string :=
    "        "
  lemma AuthTail32Clean() ensures '@' !in AuthTail32 {}

  const RegisterBody0: string :=
    "\n" +
    "def register_endpoint(user: Us" +
    "er, db: Session = Depends(get_" +
    "db)):\n"
  lemma RegisterBody0Clean() ensures '@' !in RegisterBody0 {}

  const RegisterBody1: string :=
    "    hashed = pwd_context.hash(" +
    "user.password)\n"
  lemma RegisterBody1Clean() ensures '@' !in RegisterBody1 {}

  const RegisterBody2: string :=
    "    db_user = UserDB(username=" +
    "user.username, password=hashed" +
    ")\n" +
    "    db.add(db_user)\n"
  lemma RegisterBody2Clean() ensures '@' !in RegisterBody2 {}

  const RegisterBody3: string :=
    "    db.commit()\n" +
    "    return {\"msg\": \"registered" +
    "\"}"
  lemma RegisterBody3Clean() ensures '@' !in RegisterBody3 {}

  const LoginBody0: string :=
    "\n" +
    "def login_endpoint(user: User," +
    " db: Session = Depends(get_db)" +
    "):\n"
  lemma LoginBody0Clean() ensures '@' !in LoginBody0 {}

  const LoginBody1: string :=
    "    db_user = db.query(UserDB)" +
    ".filter(UserDB.username == use" +
    "r.username).first()\n"
  lemma LoginBody1Clean() ensures '@' !in LoginBody1 {}

  const LoginBody2: string :=
    "    if not db_user or not pwd_" +
    "context.verify(user.password, " +
    "db_user.password):\n"
  lemma LoginBody2Clean() ensures '@' !in LoginBody2 {}

  const LoginBody3: string :=
    "        raise HTTPException(st" +
    "atus_code=401, detail=\"Invalid" +
    " credentials\")\n"
  lemma LoginBody3Clean() ensures '@' !in LoginBody3 {}

  const LoginBody4: string :=
    "    session_id = str(uuid.uuid" +
    "4())\n" +
    "    expiry = datetime.utcnow()" +
    " + timedelta(hours=1)\n"
  lemma LoginBody4Clean() ensures '@' !in LoginBody4 {}

  const LoginBody5: string :=
    "    db.add(SessionDB(id=sessio" +
    "n_id, user_id=db_user.id, expi" +
    "ry=expiry))\n" +
    "    db.commit()\n"
  lemma LoginBody5Clean() ensures '@' !in LoginBody5 {}

  const LoginBody6: string :=
    "    return {\"session_token\": s" +
    "ession_id}"
  lemma LoginBody6Clean() ensures '@' !in LoginBody6 {}

  const LogoutBody0: string :=
    "\n"
  lemma LogoutBody0Clean() ensures '@' !in LogoutBody0 {}

  const LogoutBody1: string :=
    "def logout_endpoint(session: S" +
    "essionDB = Depends(get_current" +
    "_session), db: Session = Depen" +
    "ds(get_db)):\n"
  lemma LogoutBody1Clean() ensures '@' !in LogoutBody1 {}

  const LogoutBody2: string :=
    "    db.delete(session)\n" +
    "    db.commit()\n" +
    "    return {\"msg\": \"Logged out" +
    " successfully\"}"
  lemma LogoutBody2Clean() ensures '@' !in LogoutBody2 {}

  const UpdateBody0: string :=
    "\n" +
    "def update_endpoint(user: User" +
    ", db: Session = Depends(get_db" +
    ")):\n"
  lemma UpdateBody0Clean() ensures '@' !in UpdateBody0 {}

  const UpdateBody1: string :=
    "    db_user = db.query(UserDB)" +
    ".filter(UserDB.username == use" +
    "r.username).first()\n"
  lemma UpdateBody1Clean() ensures '@' !in UpdateBody1 {}

  const UpdateBody2: string :=
    "    if not db_user:\n" +
    "        raise HTTPException(st" +
    "atus_code=404, detail=\"User no" +
    "t found\")\n"
  lemma UpdateBody2Clean() ensures '@' !in UpdateBody2 {}

  const UpdateBody3: string :=
    "    db_user.password = pwd_con" +
    "text.hash(user.password)\n" +
    "    db.commit()\n"
  lemma UpdateBody3Clean() ensures '@' !in UpdateBody3 {}

  const UpdateBody4: string :=
    "    return {\"msg\": \"User updat" +
    "ed\"}"
  lemma UpdateBody4Clean() ensures '@' !in UpdateBody4 {}

  const MeBody0: string :=
    "\n" +
    "def me_endpoint(current_user: " +
    "UserDB = Depends(get_current_u" +
    "ser)):\n"
  lemma MeBody0Clean() ensures '@' !in MeBody0 {}

  const MeBody1: string :=
    "    return {\"id\": current_user" +
    ".id, \"username\": current_user." +
    "username}"
  lemma MeBody1Clean() ensures '@' !in MeBody1 {}

  const RefreshBody0: string :=
    "\n"
  lemma RefreshBody0Clean() ensures '@' !in RefreshBody0 {}

  const RefreshBody1: string :=
    "def refresh_endpoint(session: " +
    "SessionDB = Depends(get_curren" +
    "t_session), db: Session = Depe" +
    "nds(get_db)):\n"
  lemma RefreshBody1Clean() ensures '@' !in RefreshBody1 {}

  const RefreshBody2: string :=
    "    new_session_id = str(uuid." +
    "uuid4())\n" +
    "    session.id = new_session_i" +
    "d\n"
  lemma RefreshBody2Clean() ensures '@' !in RefreshBody2 {}

  const RefreshBody3: string :=
    "    session.expiry = datetime." +
    "utcnow() + timedelta(hours=1)\n" +
    "    db.commit()\n"
  lemma RefreshBody3Clean() ensures '@' !in RefreshBody3 {}

  const RefreshBody4: string :=
    "    return {\"session_token\": n" +
    "ew_session_id}"
  lemma RefreshBody4Clean() ensures '@' !in RefreshBody4 {}

  const LogoutAllBody0: string :=
    "\n"
  lemma LogoutAllBody0Clean() ensures '@' !in LogoutAllBody0 {}

  const LogoutAllBody1: string :=
    "def logout_all_endpoint(curren" +
    "t_user: UserDB = Depends(get_c" +
    "urrent_user), db: Session = De" +
    "pends(get_db)):\n"
  lemma LogoutAllBody1Clean() ensures '@' !in LogoutAllBody1 {}

  const LogoutAllBody2: string :=
    "    db.query(SessionDB).filter" +
    "(SessionDB.user_id == current_" +
    "user.id).delete()\n"
  lemma LogoutAllBody2Clean() ensures '@' !in LogoutAllBody2 {}

  const LogoutAllBody3: string :=
    "    db.commit()\n" +
    "    return {\"msg\": \"Logged out" +
    " of all sessions\"}"
  lemma LogoutAllBody3Clean() ensures '@' !in LogoutAllBody3 {}

  const SessionsBody0: string :=
    "\n"
  lemma SessionsBody0Clean() ensures '@' !in SessionsBody0 {}

  const SessionsBody1: string :=
    "def list_sessions_endpoint(cur" +
    "rent_user: UserDB = Depends(ge" +
    "t_current_user), db: Session =" +
    " Depends(get_db)):\n"
  lemma SessionsBody1Clean() ensures '@' !in SessionsBody1 {}

  const SessionsBody2: string :=
    "    sessions = db.query(Sessio" +
    "nDB).filter(SessionDB.user_id " +
    "== current_user.id).all()\n"
  lemma SessionsBody2Clean() ensures '@' !in SessionsBody2 {}

  const SessionsBody3: string :=
    "    return [{\"id\": s.id, \"expi" +
    "ry\": s.expiry.isoformat()} for" +
    " s in sessions]"
  lemma SessionsBody3Clean() ensures '@' !in SessionsBody3 {}

  const RevokeBody0: string :=
    "\n"
  lemma RevokeBody0Clean() ensures '@' !in RevokeBody0 {}

  const RevokeBody1: string :=
    "def revoke_session_endpoint(id" +
    ": str, current_user: UserDB = " +
    "Depends(get_current_user), db:" +
    " Session = Depends(get_db)):\n"
  lemma RevokeBody1Clean() ensures '@' !in RevokeBody1 {}

  const RevokeBody2: string :=
    "    session = db.query(Session" +
    "DB).filter(SessionDB.id == id," +
    " SessionDB.user_id == current_" +
    "user.id).first()\n"
  lemma RevokeBody2Clean() ensures '@' !in RevokeBody2 {}

  const RevokeBody3: string :=
    "    if not session:\n"
  lemma RevokeBody3Clean() ensures '@' !in RevokeBody3 {}

  const RevokeBody4: string :=
    "        raise HTTPException(st" +
    "atus_code=404, detail=\"Session" +
    " not found\")\n"
  lemma RevokeBody4Clean() ensures '@' !in RevokeBody4 {}

  const RevokeBody5: string :=
    "    db.delete(session)\n" +
    "    db.commit()\n" +
    "    return {\"msg\": \"Session re" +
    "voked\"}"
  lemma RevokeBody5Clean() ensures '@' !in RevokeBody5 {}

}
