/**
 * The user directory gateway: each call reads the remote directory and, when
 * that read fails for any reason, answers from the embedded 50-record table
 * instead. Every path returns enhanced records. The remote read itself is an
 * input of each operation: `Success(response)` or `Failure`.
 */
module UserApi {
  import opened Outcomes
  import opened Text
  import opened Paging
  import opened UserTypes
  import opened UserEnhancer

  /** The outcome of one remote read. */
  datatype Remote<T> = Success(response: T) | Failure

  /** The body of `GET /users`: paging fields and one page of records. */
  datatype UsersResponse<T> = UsersResponse(page: int, perPage: int, total: int, totalPages: int, data: seq<T>)

  const UserNotFound := "User not found"

  const AvatarBase := "https://i.pravatar.cc/150?img="

  /** The embedded table in five-record chunks. */
  const MockUsers1To5: seq<User> := [
    User(1, "rahul.sharma@example.com", "Rahul", "Sharma", AvatarBase + "1"),
    User(2, "priya.patel@example.com", "Priya", "Patel", AvatarBase + "2"),
    User(3, "amit.kumar@example.com", "Amit", "Kumar", AvatarBase + "3"),
    User(4, "sneha.reddy@example.com", "Sneha", "Reddy", AvatarBase + "4"),
    User(5, "vikram.singh@example.com", "Vikram", "Singh", AvatarBase + "5")
  ]

  const MockUsers6To10: seq<User> := [
    User(6, "ananya.iyer@example.com", "Ananya", "Iyer", AvatarBase + "6"),
    User(7, "rohan.mehta@example.com", "Rohan", "Mehta", AvatarBase + "7"),
    User(8, "kavya.nair@example.com", "Kavya", "Nair", AvatarBase + "8"),
    User(9, "arjun.gupta@example.com", "Arjun", "Gupta", AvatarBase + "9"),
    User(10, "ishita.joshi@example.com", "Ishita", "Joshi", AvatarBase + "10")
  ]

  const MockUsers11To15: seq<User> := [
    User(11, "aditya.rao@example.com", "Aditya", "Rao", AvatarBase + "11"),
    User(12, "meera.desai@example.com", "Meera", "Desai", AvatarBase + "12"),
    User(13, "karan.malhotra@example.com", "Karan", "Malhotra", AvatarBase + "13"),
    User(14, "neha.kulkarni@example.com", "Neha", "Kulkarni", AvatarBase + "14"),
    User(15, "siddharth.verma@example.com", "Siddharth", "Verma", AvatarBase + "15")
  ]

  const MockUsers16To20: seq<User> := [
    User(16, "pooja.shah@example.com", "Pooja", "Shah", AvatarBase + "16"),
    User(17, "nikhil.bose@example.com", "Nikhil", "Bose", AvatarBase + "17"),
    User(18, "riya.agarwal@example.com", "Riya", "Agarwal", AvatarBase + "18"),
    User(19, "varun.kapoor@example.com", "Varun", "Kapoor", AvatarBase + "19"),
    User(20, "divya.bansal@example.com", "Divya", "Bansal", AvatarBase + "20")
  ]

  const MockUsers21To25: seq<User> := [
    User(21, "harsh.chauhan@example.com", "Harsh", "Chauhan", AvatarBase + "21"),
    User(22, "tanvi.pillai@example.com", "Tanvi", "Pillai", AvatarBase + "22"),
    User(23, "ayush.yadav@example.com", "Ayush", "Yadav", AvatarBase + "23"),
    User(24, "sakshi.pandey@example.com", "Sakshi", "Pandey", AvatarBase + "24"),
    User(25, "manish.jain@example.com", "Manish", "Jain", AvatarBase + "25")
  ]

  const MockUsers26To30: seq<User> := [
    User(26, "aditi.saxena@example.com", "Aditi", "Saxena", AvatarBase + "26"),
    User(27, "gaurav.mishra@example.com", "Gaurav", "Mishra", AvatarBase + "27"),
    User(28, "nidhi.srivastava@example.com", "Nidhi", "Srivastava", AvatarBase + "28"),
    User(29, "deepak.thakur@example.com", "Deepak", "Thakur", AvatarBase + "29"),
    User(30, "anjali.bhatt@example.com", "Anjali", "Bhatt", AvatarBase + "30")
  ]

  const MockUsers31To35: seq<User> := [
    User(31, "rajesh.tiwari@example.com", "Rajesh", "Tiwari", AvatarBase + "31"),
    User(32, "shruti.menon@example.com", "Shruti", "Menon", AvatarBase + "32"),
    User(33, "vivek.dubey@example.com", "Vivek", "Dubey", AvatarBase + "33"),
    User(34, "simran.chawla@example.com", "Simran", "Chawla", AvatarBase + "34"),
    User(35, "pankaj.khanna@example.com", "Pankaj", "Khanna", AvatarBase + "35")
  ]

  const MockUsers36To40: seq<User> := [
    User(36, "payal.singh@example.com", "Payal", "Singh", AvatarBase + "36"),
    User(37, "sandeep.varma@example.com", "Sandeep", "Varma", AvatarBase + "37"),
    User(38, "kirti.goyal@example.com", "Kirti", "Goyal", AvatarBase + "38"),
    User(39, "vishal.pandey@example.com", "Vishal", "Pandey", AvatarBase + "39"),
    User(40, "megha.shukla@example.com", "Megha", "Shukla", AvatarBase + "40")
  ]

  const MockUsers41To45: seq<User> := [
    User(41, "abhishek.singh@example.com", "Abhishek", "Singh", AvatarBase + "41"),
    User(42, "richa.malhotra@example.com", "Richa", "Malhotra", AvatarBase + "42"),
    User(43, "mohit.chopra@example.com", "Mohit", "Chopra", AvatarBase + "43"),
    User(44, "swati.arora@example.com", "Swati", "Arora", AvatarBase + "44"),
    User(45, "naveen.das@example.com", "Naveen", "Das", AvatarBase + "45")
  ]

  const MockUsers46To50: seq<User> := [
    User(46, "preeti.bajaj@example.com", "Preeti", "Bajaj", AvatarBase + "46"),
    User(47, "tarun.sengupta@example.com", "Tarun", "Sengupta", AvatarBase + "47"),
    User(48, "komal.rana@example.com", "Komal", "Rana", AvatarBase + "48"),
    User(49, "yash.bhardwaj@example.com", "Yash", "Bhardwaj", AvatarBase + "49"),
    User(50, "tanya.ghosh@example.com", "Tanya", "Ghosh", AvatarBase + "50")
  ]

  /** `MOCK_USERS`: the fallback directory. */
  const MockUsers: seq<User> :=
    MockUsers1To5 + MockUsers6To10 + MockUsers11To15 + MockUsers16To20 + MockUsers21To25
    + MockUsers26To30 + MockUsers31To35 + MockUsers36To40 + MockUsers41To45 + MockUsers46To50

  /** Record `i` of `users` has id `first + i` and the matching numbered avatar. */
  predicate NumberedFrom(users: seq<User>, first: nat) {
    forall i :: 0 <= i < |users| ==>
      users[i].id == first + i && users[i].avatar == AvatarBase + NatToString(first + i)
  }

  /** Numbering carries across a concatenation. */
  lemma NumberedConcat(a: seq<User>, b: seq<User>, first: nat)
    requires NumberedFrom(a, first) && NumberedFrom(b, first + |a|)
    ensures NumberedFrom(a + b, first)
  {
    forall i | |a| <= i < |a| + |b|
      ensures (a + b)[i] == b[i - |a|]
    {
    }
  }

  lemma MockUsers1To5Numbered()
    ensures |MockUsers1To5| == 5 && NumberedFrom(MockUsers1To5, 1)
  {
    forall i | 0 <= i < 5
      ensures MockUsers1To5[i].id == 1 + i && MockUsers1To5[i].avatar == AvatarBase + NatToString(1 + i)
    {
      if i == 0 {
        assert NatToString(1) == "1";
      } else if i == 1 {
        assert NatToString(2) == "2";
      } else if i == 2 {
        assert NatToString(3) == "3";
      } else if i == 3 {
        assert NatToString(4) == "4";
      } else if i == 4 {
        assert NatToString(5) == "5";
      }
    }
  }

  lemma MockUsers6To10Numbered()
    ensures |MockUsers6To10| == 5 && NumberedFrom(MockUsers6To10, 6)
  {
    forall i | 0 <= i < 5
      ensures MockUsers6To10[i].id == 6 + i && MockUsers6To10[i].avatar == AvatarBase + NatToString(6 + i)
    {
      if i == 0 {
        assert NatToString(6) == "6";
      } else if i == 1 {
        assert NatToString(7) == "7";
      } else if i == 2 {
        assert NatToString(8) == "8";
      } else if i == 3 {
        assert NatToString(9) == "9";
      } else if i == 4 {
        assert NatToString(10) == "10";
      }
    }
  }

  lemma MockUsers11To15Numbered()
    ensures |MockUsers11To15| == 5 && NumberedFrom(MockUsers11To15, 11)
  {
    forall i | 0 <= i < 5
      ensures MockUsers11To15[i].id == 11 + i && MockUsers11To15[i].avatar == AvatarBase + NatToString(11 + i)
    {
      if i == 0 {
        assert NatToString(11) == "11";
      } else if i == 1 {
        assert NatToString(12) == "12";
      } else if i == 2 {
        assert NatToString(13) == "13";
      } else if i == 3 {
        assert NatToString(14) == "14";
      } else if i == 4 {
        assert NatToString(15) == "15";
      }
    }
  }

  lemma MockUsers16To20Numbered()
    ensures |MockUsers16To20| == 5 && NumberedFrom(MockUsers16To20, 16)
  {
    forall i | 0 <= i < 5
      ensures MockUsers16To20[i].id == 16 + i && MockUsers16To20[i].avatar == AvatarBase + NatToString(16 + i)
    {
      if i == 0 {
        assert NatToString(16) == "16";
      } else if i == 1 {
        assert NatToString(17) == "17";
      } else if i == 2 {
        assert NatToString(18) == "18";
      } else if i == 3 {
        assert NatToString(19) == "19";
      } else if i == 4 {
        assert NatToString(20) == "20";
      }
    }
  }

  lemma MockUsers21To25Numbered()
    ensures |MockUsers21To25| == 5 && NumberedFrom(MockUsers21To25, 21)
  {
    forall i | 0 <= i < 5
      ensures MockUsers21To25[i].id == 21 + i && MockUsers21To25[i].avatar == AvatarBase + NatToString(21 + i)
    {
      if i == 0 {
        assert NatToString(21) == "21";
      } else if i == 1 {
        assert NatToString(22) == "22";
      } else if i == 2 {
        assert NatToString(23) == "23";
      } else if i == 3 {
        assert NatToString(24) == "24";
      } else if i == 4 {
        assert NatToString(25) == "25";
      }
    }
  }

  lemma MockUsers26To30Numbered()
    ensures |MockUsers26To30| == 5 && NumberedFrom(MockUsers26To30, 26)
  {
    forall i | 0 <= i < 5
      ensures MockUsers26To30[i].id == 26 + i && MockUsers26To30[i].avatar == AvatarBase + NatToString(26 + i)
    {
      if i == 0 {
        assert NatToString(26) == "26";
      } else if i == 1 {
        assert NatToString(27) == "27";
      } else if i == 2 {
        assert NatToString(28) == "28";
      } else if i == 3 {
        assert NatToString(29) == "29";
      } else if i == 4 {
        assert NatToString(30) == "30";
      }
    }
  }

  lemma MockUsers31To35Numbered()
    ensures |MockUsers31To35| == 5 && NumberedFrom(MockUsers31To35, 31)
  {
    forall i | 0 <= i < 5
      ensures MockUsers31To35[i].id == 31 + i && MockUsers31To35[i].avatar == AvatarBase + NatToString(31 + i)
    {
      if i == 0 {
        assert NatToString(31) == "31";
      } else if i == 1 {
        assert NatToString(32) == "32";
      } else if i == 2 {
        assert NatToString(33) == "33";
      } else if i == 3 {
        assert NatToString(34) == "34";
      } else if i == 4 {
        assert NatToString(35) == "35";
      }
    }
  }

  lemma MockUsers36To40Numbered()
    ensures |MockUsers36To40| == 5 && NumberedFrom(MockUsers36To40, 36)
  {
    forall i | 0 <= i < 5
      ensures MockUsers36To40[i].id == 36 + i && MockUsers36To40[i].avatar == AvatarBase + NatToString(36 + i)
    {
      if i == 0 {
        assert NatToString(36) == "36";
      } else if i == 1 {
        assert NatToString(37) == "37";
      } else if i == 2 {
        assert NatToString(38) == "38";
      } else if i == 3 {
        assert NatToString(39) == "39";
      } else if i == 4 {
        assert NatToString(40) == "40";
      }
    }
  }

  lemma MockUsers41To45Numbered()
    ensures |MockUsers41To45| == 5 && NumberedFrom(MockUsers41To45, 41)
  {
    forall i | 0 <= i < 5
      ensures MockUsers41To45[i].id == 41 + i && MockUsers41To45[i].avatar == AvatarBase + NatToString(41 + i)
    {
      if i == 0 {
        assert NatToString(41) == "41";
      } else if i == 1 {
        assert NatToString(42) == "42";
      } else if i == 2 {
        assert NatToString(43) == "43";
      } else if i == 3 {
        assert NatToString(44) == "44";
      } else if i == 4 {
        assert NatToString(45) == "45";
      }
    }
  }

  lemma MockUsers46To50Numbered()
    ensures |MockUsers46To50| == 5 && NumberedFrom(MockUsers46To50, 46)
  {
    forall i | 0 <= i < 5
      ensures MockUsers46To50[i].id == 46 + i && MockUsers46To50[i].avatar == AvatarBase + NatToString(46 + i)
    {
      if i == 0 {
        assert NatToString(46) == "46";
      } else if i == 1 {
        assert NatToString(47) == "47";
      } else if i == 2 {
        assert NatToString(48) == "48";
      } else if i == 3 {
        assert NatToString(49) == "49";
      } else if i == 4 {
        assert NatToString(50) == "50";
      }
    }
  }

  /** The table holds 50 records; record `i` has id `i + 1` and avatar `img={i + 1}`, so the ids are distinct. */
  lemma MockUsersShape()
    ensures |MockUsers| == 50
    ensures NumberedFrom(MockUsers, 1)
    ensures forall i, j :: 0 <= i < j < |MockUsers| ==> MockUsers[i].id != MockUsers[j].id
  {
    MockUsers1To5Numbered();
    MockUsers6To10Numbered();
    MockUsers11To15Numbered();
    MockUsers16To20Numbered();
    MockUsers21To25Numbered();
    MockUsers26To30Numbered();
    MockUsers31To35Numbered();
    MockUsers36To40Numbered();
    MockUsers41To45Numbered();
    MockUsers46To50Numbered();
    var prefix := MockUsers1To5;
    NumberedConcat(prefix, MockUsers6To10, 1);
    prefix := prefix + MockUsers6To10;
    NumberedConcat(prefix, MockUsers11To15, 1);
    prefix := prefix + MockUsers11To15;
    NumberedConcat(prefix, MockUsers16To20, 1);
    prefix := prefix + MockUsers16To20;
    NumberedConcat(prefix, MockUsers21To25, 1);
    prefix := prefix + MockUsers21To25;
    NumberedConcat(prefix, MockUsers26To30, 1);
    prefix := prefix + MockUsers26To30;
    NumberedConcat(prefix, MockUsers31To35, 1);
    prefix := prefix + MockUsers31To35;
    NumberedConcat(prefix, MockUsers36To40, 1);
    prefix := prefix + MockUsers36To40;
    NumberedConcat(prefix, MockUsers41To45, 1);
    prefix := prefix + MockUsers41To45;
    NumberedConcat(prefix, MockUsers46To50, 1);
    prefix := prefix + MockUsers46To50;
    assert prefix == MockUsers;
  }

  /** `MOCK_USERS.find(u => u.id === id)`: the first record with that id. */
  function FindById(users: seq<User>, id: int): (r: Option<User>)
    ensures r.None? <==> forall i :: 0 <= i < |users| ==> users[i].id != id
    ensures r.Some? ==> exists i :: 0 <= i < |users| && users[i] == r.value && r.value.id == id
                                     && forall j :: 0 <= j < i ==> users[j].id != id
  {
    if |users| == 0 then None
    else if users[0].id == id then Some(users[0])
    else
      var rest := FindById(users[1..], id);
      assert forall i :: 1 <= i < |users| ==> users[i] == users[1..][i - 1];
      rest
  }

  /** `userApi.getUsers(page, perPage)`. */
  function GetUsers(remote: Remote<UsersResponse<User>>, page: int, perPage: int): (r: UsersResponse<UserWithStatus>)
    requires remote.Failure? ==> perPage >= 1
    ensures remote.Success? ==>
      && r.page == remote.response.page
      && r.perPage == remote.response.perPage
      && r.total == remote.response.total
      && r.totalPages == remote.response.totalPages
      && r.data == EnhanceUsers(remote.response.data)
    ensures remote.Failure? ==>
      && r.page == page
      && r.perPage == perPage
      && r.total == |MockUsers|
      && r.totalPages == PageCount(|MockUsers|, perPage)
      && r.data == EnhanceUsers(PageOf(MockUsers, page, perPage))
  {
    match remote
    case Success(response) =>
      UsersResponse(response.page, response.perPage, response.total, response.totalPages, EnhanceUsers(response.data))
    case Failure =>
      UsersResponse(page, perPage, |MockUsers|, PageCount(|MockUsers|, perPage), EnhanceUsers(PageOf(MockUsers, page, perPage)))
  }

  /** `userApi.getUserById(id)`: fails only when the fallback table has no such id. */
  function GetUserById(remote: Remote<User>, id: int): (r: Result<UserWithStatus, string>)
    ensures remote.Success? ==> r == Ok(EnhanceUser(remote.response))
    ensures remote.Failure? && r.Ok? ==> r.value.id == id && BaseUser(r.value) in MockUsers
    ensures remote.Failure? && r.Err? ==> r.error == UserNotFound && forall u :: u in MockUsers ==> u.id != id
  {
    match remote
    case Success(user) => Ok(EnhanceUser(user))
    case Failure =>
      match FindById(MockUsers, id)
      case None => Err(UserNotFound)
      case Some(user) => Ok(EnhanceUser(user))
  }

  /** `userApi.getAllUsers()`. */
  function GetAllUsers(remote: Remote<UsersResponse<User>>): (r: seq<UserWithStatus>)
    ensures remote.Success? ==> r == EnhanceUsers(remote.response.data)
    ensures remote.Failure? ==> r == EnhanceUsers(MockUsers)
  {
    match remote
    case Success(response) => EnhanceUsers(response.data)
    case Failure => EnhanceUsers(MockUsers)
  }

  /** On failure, the page is the enhanced window `[(page - 1) * perPage, page * perPage)` of the table, clamped. */
  lemma GetUsersFallbackWindow(page: int, perPage: int)
    requires page >= 1 && perPage >= 1
    ensures var r := GetUsers(Failure, page, perPage);
      && r.data == GetAllUsers(Failure)[PageStart(page, perPage, 50)..PageEnd(page, perPage, 50)]
      && r.totalPages == (50 + perPage - 1) / perPage
      && |r.data| <= perPage
      && ((page - 1) * perPage >= 50 ==> r.data == [])
  {
    assert |MockUsers| == 50;
    EnhancedPage(MockUsers, page, perPage);
  }

  lemma EnhancedPage(table: seq<User>, page: int, perPage: int)
    requires page >= 1 && perPage >= 1
    ensures EnhanceUsers(PageOf(table, page, perPage))
         == EnhanceUsers(table)[PageStart(page, perPage, |table|)..PageEnd(page, perPage, |table|)]
  {
    EnhanceUsersSlice(table, PageStart(page, perPage, |table|), PageEnd(page, perPage, |table|));
  }

  /** On failure, the fallback pages 1..totalPages laid end to end are exactly what `getAllUsers` returns. */
  lemma {:induction false} FallbackPagesMakeAllUsers(perPage: int, k: nat)
    requires perPage >= 1
    ensures FallbackPages(perPage, k) == EnhanceUsers(ConcatPages(MockUsers, k, perPage))
  {
    if k > 0 {
      FallbackPagesMakeAllUsers(perPage, k - 1);
      var earlier := ConcatPages(MockUsers, k - 1, perPage);
      var page := PageOf(MockUsers, k, perPage);
      assert ConcatPages(MockUsers, k, perPage) == earlier + page;
      assert GetUsers(Failure, k, perPage).data == EnhanceUsers(page);
      EnhanceUsersConcat(earlier, page);
    }
  }

  /** The data of fallback pages 1..k, laid end to end. */
  function FallbackPages(perPage: int, k: nat): seq<UserWithStatus>
    requires perPage >= 1
  {
    if k == 0 then [] else FallbackPages(perPage, k - 1) + GetUsers(Failure, k, perPage).data
  }

  lemma EnhanceUsersConcat(a: seq<User>, b: seq<User>)
    ensures EnhanceUsers(a + b) == EnhanceUsers(a) + EnhanceUsers(b)
  {
  }

  /** Paging through the whole fallback directory yields `getAllUsers`' fallback, with nothing lost or repeated. */
  lemma FallbackPagingCoversAll(perPage: int)
    requires perPage >= 1
    ensures FallbackPages(perPage, GetUsers(Failure, 1, perPage).totalPages) == GetAllUsers(Failure)
  {
    FallbackPagesMakeAllUsers(perPage, PageCount(|MockUsers|, perPage));
    PagesRebuild(MockUsers, perPage);
  }

  /** On failure, a lookup succeeds exactly for ids 1 to 50 and returns that table record. */
  lemma GetUserByIdFallback(id: int)
    ensures GetUserById(Failure, id).Ok? <==> 1 <= id <= 50
    ensures 1 <= id <= 50 ==> GetUserById(Failure, id) == Ok(EnhanceUser(MockUsers[id - 1]))
  {
    MockUsersShape();
    if 1 <= id <= 50 {
      var found := FindById(MockUsers, id);
      assert MockUsers[id - 1].id == id;
      var i :| 0 <= i < |MockUsers| && MockUsers[i] == found.value && found.value.id == id;
      assert i == id - 1;
    } else {
      forall u | u in MockUsers
        ensures u.id != id
      {
        var i :| 0 <= i < |MockUsers| && MockUsers[i] == u;
      }
    }
  }

  /** Looking up id 999 without the remote directory fails with "User not found". */
  lemma GetUserByIdMissing()
    ensures GetUserById(Failure, 999) == Err(UserNotFound)
  {
    GetUserByIdFallback(999);
  }

  /** Every record returned on every path carries the status, join day and last-active day of its id. */
  lemma EveryPathEnhanced(list: Remote<UsersResponse<User>>, one: Remote<User>, page: int, perPage: int, id: int)
    requires list.Failure? ==> perPage >= 1
    ensures forall u :: u in GetUsers(list, page, perPage).data ==> IsEnhanced(u)
    ensures forall u :: u in GetAllUsers(list) ==> IsEnhanced(u)
    ensures GetUserById(one, id).Ok? ==> IsEnhanced(GetUserById(one, id).value)
  {
  }

  /** Among consecutive ids `first .. first + |users| - 1`, how many are multiples of three. */
  lemma {:induction false} InactiveAmongConsecutive(users: seq<User>, first: nat)
    requires forall i :: 0 <= i < |users| ==> users[i].id == first + i
    ensures |WithStatus(EnhanceUsers(users), Inactive)| == (first + |users| + 2) / 3 - (first + 2) / 3
  {
    if |users| > 0 {
      var enhanced := EnhanceUsers(users);
      var rest := WithStatus(enhanced[1..], Inactive);
      InactiveAmongConsecutive(users[1..], first + 1);
      assert enhanced[1..] == EnhanceUsers(users[1..]);
      MultiplesOfThreeStep(first, |users|);
      if first % 3 == 0 {
        assert enhanced[0].status == Inactive;
        assert WithStatus(enhanced, Inactive) == [enhanced[0]] + rest;
      } else {
        assert enhanced[0].status == Active;
        assert WithStatus(enhanced, Inactive) == rest;
      }
    }
  }

  lemma MultiplesOfThreeStep(first: nat, n: nat)
    requires n >= 1
    ensures (first + n + 2) / 3 - (first + 2) / 3
         == (if first % 3 == 0 then 1 else 0) + ((first + 1 + (n - 1) + 2) / 3 - (first + 1 + 2) / 3)
  {
  }

  /** The fallback of `getAllUsers` holds 16 inactive users (ids divisible by three) and 34 active ones. */
  lemma AllUsersFallbackStatusCounts()
    ensures |GetAllUsers(Failure)| == 50
    ensures |WithStatus(GetAllUsers(Failure), Inactive)| == 16
    ensures |WithStatus(GetAllUsers(Failure), Active)| == 34
  {
    MockUsersShape();
    InactiveAmongConsecutive(MockUsers, 1);
    StatusPartition(GetAllUsers(Failure));
  }
}
